/** The band pipeline (components/display/display_render.c): each call draws one band of
    the panel, through the row cache, the scan and the passes, and is proved to show the
    reference picture. */
module Renderer {
  import opened Arith
  import opened FontTypes
  import opened Pixels
  import opened Geometry
  import opened Transitions
  import opened Picture
  import opened RowCache
  import opened Passes
  import Wobble

  // ------------------------------------------------------------- one band

  /** Line n of the buffer: the drawn cells, displaced, then clipped. */
  ghost predicate Drawn(cx: Context, dst: seq<Word>, cur: Cursor, row: int, clip: Clip, y0: int, n: nat)
    requires Ready(cx) && n < cx.lines
  {
    && |dst| == cx.lines * LINE_WORDS
    && forall i :: 0 <= i < LINE_WORDS ==>
         dst[n * LINE_WORDS + i] == Clipped(clip, y0 + n, LineWord(cx, n, cx.ncols, CursorColumn(cx, cur, row, n), i))
  }

  lemma DrawnLine(cx: Context, mid: seq<Word>, dst: seq<Word>, cur: Cursor, row: int, clip: Clip, y0: int, n: nat)
    requires Ready(cx) && n < cx.lines && LineIs(cx, mid, n, cx.ncols, CursorColumn(cx, cur, row, n))
    requires if clip.active then LineClipped(mid, dst, y0, n, clip) else dst == mid
    ensures Drawn(cx, dst, cur, row, clip, y0, n)
  {
    hide Ready, CursorColumn, LineWord;
  }

  /** Scan, underlines, cursor, clip: the tail of render_chunk_body. */
  method DrawBand(dst: array<Word>, cx: Context, anyUl: bool, cur: Cursor, row: int, clip: Clip, y0: int)
    requires Ready(cx) && dst.Length == cx.lines * LINE_WORDS
    requires anyUl <==> AnyUnderlined(cx.cols, cx.ncols)
    modifies dst
    ensures forall n :: 0 <= n < cx.lines ==> Drawn(cx, dst[..], cur, row, clip, y0, n)
  {
    hide Ready, LineIs, LinesAre, CursorColumn, Clipped, Drawn, LineClipped, AnyUnderlined;
    ScanBand(dst, cx);
    UnderlinePass(dst, cx, anyUl);
    CursorPass(dst, cx, cur, row);
    ghost var mid := dst[..];
    if clip.active {
      ClipApply(dst, y0, cx.lines, clip);
    }
    forall n | 0 <= n < cx.lines ensures Drawn(cx, dst[..], cur, row, clip, y0, n) {
      DrawnLine(cx, mid, dst[..], cur, row, clip, y0, n);
    }
  }

  // -------------------------------------------------- words against pixels

  /** Pixels scanline y moves by under this snapshot. */
  function Shift(v: View, lut: Wobble.Lut, frame: nat, y: nat): int
    requires frame < 256
  {
    if v.fx.wobble then Wobble.Pixels(lut, frame, y) else 0
  }

  /** Word i of line n shows pixels 2i and 2i + 1 of scanline y. */
  ghost predicate ShowsWord(dst: seq<Word>, n: nat, s: Scene, v: View, shift: int, i: nat, y: nat)
    requires v.g.fw > 0 && v.g.fh > 0 && WellFormed(s, v.cols, v.rows, v.g.fh) && n * LINE_WORDS + i < |dst|
  {
    && LeftOf(dst[n * LINE_WORDS + i]) == PanelPixel(s, v, shift, 2 * i, y)
    && RightOf(dst[n * LINE_WORDS + i]) == PanelPixel(s, v, shift, 2 * i + 1, y)
  }

  /** Line n of a buffer shows scanline y of the reference picture. */
  ghost predicate ShowsLine(dst: seq<Word>, n: nat, s: Scene, v: View, shift: int, y: nat)
    requires v.g.fw > 0 && v.g.fh > 0 && WellFormed(s, v.cols, v.rows, v.g.fh)
  {
    && (n + 1) * LINE_WORDS <= |dst|
    && forall i :: 0 <= i < LINE_WORDS ==> ShowsWord(dst, n, s, v, shift, i, y)
  }

  /** Two pixels of a word fall in the same cell, side by side. */
  lemma PixelOfWord(j: nat, cw: nat)
    requires cw > 0
    ensures 2 * j / (2 * cw) == j / cw && 2 * j % (2 * cw) == 2 * (j % cw)
    ensures (2 * j + 1) / (2 * cw) == j / cw && (2 * j + 1) % (2 * cw) == 2 * (j % cw) + 1
    ensures j % cw < cw
  {
    DivMod(j, cw);
    assert 2 * j == (j / cw) * (2 * cw) + 2 * (j % cw);
    DivUnique(2 * j, 2 * cw, j / cw, 2 * (j % cw));
    DivUnique(2 * j + 1, 2 * cw, j / cw, 2 * (j % cw) + 1);
  }

  lemma InText(j: int, cw: nat, ncols: nat)
    requires cw > 0 && j >= 0
    ensures j < ncols * cw <==> j / cw < ncols
  {
    DivMod(j, cw);
    if j / cw < ncols {
      MulMonotone(j / cw + 1, ncols, cw);
      assert (j / cw + 1) * cw == j / cw * cw + cw;
    } else {
      MulMonotone(ncols, j / cw, cw);
    }
  }

  /** The context holds row `row` of the scene, and line n of the band is scanline y. */
  ghost predicate Draws(cx: Context, s: Scene, v: View, row: nat, n: nat, y: nat)
    requires v.g.fw > 0 && v.g.fh > 0 && WellFormed(s, v.cols, v.rows, v.g.fh)
  {
    && Ready(cx) && n < cx.lines
    && cx.ncols == v.cols && cx.fw == v.g.fw && cx.fh == v.g.fh && cx.scan == v.fx.scanlines
    && row < v.rows && RowShows(cx.cols, cx.ncols, s, v.fx, v.cols, v.rows, v.g.fh, row, cx.scan)
    && y / v.g.fh == row && y % v.g.fh == cx.gl0 + n && y % 2 == n % 2
  }

  /** Word w of cell c, drawn, is the reference's two pixels there. */
  lemma CellWord(cx: Context, s: Scene, v: View, row: nat, n: nat, y: nat, c: nat, w: nat)
    requires v.g.fw > 0 && v.g.fh > 0 && WellFormed(s, v.cols, v.rows, v.g.fh) && Draws(cx, s, v, row, n, y)
    requires c < cx.ncols && w < CellWidth(cx)
    ensures var l := LookOf(s, v.fx, v.cols, v.rows, v.g.fh, row, c);
            var word := StageWord(cx, n, cx.ncols, CursorColumn(cx, v.cursor, row, n), c, w);
            var dimmed, on := v.fx.scanlines && y % 2 == 1, CursorOn(v.cursor, row, c)
                && CursorLine(v.cursor, y % v.g.fh, v.g.fh);
            && LeftOf(word) == CellPixel(l, v.g.fw, v.g.fh, y % v.g.fh, 2 * w, dimmed, on)
            && RightOf(word) == CellPixel(l, v.g.fw, v.g.fh, y % v.g.fh, 2 * w + 1, dimmed, on)
  {
    hide WellFormed, LookOf, ColumnIs, LeftOf, RightOf, CellPixel, LinedWord, Invert, FootLine, ColumnsReady;
    var l := LookOf(s, v.fx, v.cols, v.rows, v.g.fh, row, c);
    var on := CursorOn(v.cursor, row, c) && CursorLine(v.cursor, y % v.g.fh, v.g.fh);
    DrawnWordIsCell(cx.cols[c], l, cx.scan, cx.fw, cx.fh, cx.gl0 + n, Dim(cx, n), on, w);
  }

  /** The text as it stands on the displaced line, before clipping. */
  function TextOrBlack(s: Scene, v: View, x: int, y: nat): Color
    requires v.g.fw > 0 && v.g.fh > 0 && WellFormed(s, v.cols, v.rows, v.g.fh) && y / v.g.fh < v.rows
  {
    if x >= 0 && x / v.g.fw < v.cols then TextPixel(s, v, x, y) else 0
  }

  lemma LineWordShows(cx: Context, s: Scene, v: View, row: nat, n: nat, y: nat, i: nat)
    requires v.g.fw > 0 && v.g.fh > 0 && WellFormed(s, v.cols, v.rows, v.g.fh) && Draws(cx, s, v, row, n, y)
    ensures var w, x := LineWord(cx, n, cx.ncols, CursorColumn(cx, v.cursor, row, n), i), 2 * (i - Koff(cx, n));
            LeftOf(w) == TextOrBlack(s, v, x, y) && RightOf(w) == TextOrBlack(s, v, x + 1, y)
  {
    hide WellFormed, LookOf, RowShows, LeftOf, RightOf, CellPixel, StageWord, CursorColumn, CursorOn, CursorLine,
         ColumnsReady, TextPixel;
    var j, cw := i - Koff(cx, n), CellWidth(cx);
    BlackParts();
    if j >= 0 {
      PixelOfWord(j, cw);
      InText(j, cw, cx.ncols);
      if j / cw < cx.ncols {
        TextWord(cx, s, v, row, n, y, j);
      }
    }
  }

  /** Word j of the undisplaced text, drawn, is the reference's pixels 2j and 2j + 1. */
  lemma TextWord(cx: Context, s: Scene, v: View, row: nat, n: nat, y: nat, j: nat)
    requires v.g.fw > 0 && v.g.fh > 0 && WellFormed(s, v.cols, v.rows, v.g.fh) && Draws(cx, s, v, row, n, y)
    requires 2 * j / v.g.fw == (2 * j + 1) / v.g.fw == j / CellWidth(cx) < cx.ncols && j % CellWidth(cx) < CellWidth(cx)
    requires 2 * j % v.g.fw == 2 * (j % CellWidth(cx)) && (2 * j + 1) % v.g.fw == 2 * (j % CellWidth(cx)) + 1
    ensures var w := StageWord(cx, n, cx.ncols, CursorColumn(cx, v.cursor, row, n), j / CellWidth(cx),
            j % CellWidth(cx));
            LeftOf(w) == TextPixel(s, v, 2 * j, y) && RightOf(w) == TextPixel(s, v, 2 * j + 1, y)
  {
    hide WellFormed, LookOf, RowShows, LeftOf, RightOf, CellPixel, StageWord, CursorColumn, CursorOn, CursorLine,
         ColumnsReady;
    CellWord(cx, s, v, row, n, y, j / CellWidth(cx), j % CellWidth(cx));
  }

  /** A drawn line shows its scanline. */
  lemma DrawnShows(cx: Context, dst: seq<Word>, s: Scene, v: View, row: nat, y0: nat, n: nat, y: nat)
    requires v.g.fw > 0 && v.g.fh > 0 && WellFormed(s, v.cols, v.rows, v.g.fh) && Draws(cx, s, v, row, n, y)
    requires y == y0 + n && Drawn(cx, dst, v.cursor, row, v.clip, y0, n)
    ensures ShowsLine(dst, n, s, v, 2 * Koff(cx, n), y)
  {
    hide WellFormed, LineWord, Clipped, ClippedPixel, LeftOf, RightOf, TextPixel, CursorColumn, RowShows, ColumnsReady;
    var shift := 2 * Koff(cx, n);
    forall i | 0 <= i < LINE_WORDS ensures ShowsWord(dst, n, s, v, shift, i, y) {
      var w := LineWord(cx, n, cx.ncols, CursorColumn(cx, v.cursor, row, n), i);
      LineWordShows(cx, s, v, row, n, y, i);
      ClippedParts(v.clip, y, w);
      assert dst[n * LINE_WORDS + i] == Clipped(v.clip, y0 + n, w);
    }
  }

  /** Line n of the band starting at scanline `start` shows its scanline, displaced as
      the frame's wobble says. */
  ghost predicate BandLine(dst: seq<Word>, n: nat, s: Scene, v: View, lut: Wobble.Lut, frame: nat, start: nat)
    requires v.g.fw > 0 && v.g.fh > 0 && WellFormed(s, v.cols, v.rows, v.g.fh) && frame < 256
  {
    ShowsLine(dst, n, s, v, Shift(v, lut, frame, start + n), start + n)
  }

  ghost predicate BandShows(dst: seq<Word>, s: Scene, v: View, lut: Wobble.Lut, frame: nat, start: nat)
    requires v.g.fw > 0 && v.g.fh > 0 && WellFormed(s, v.cols, v.rows, v.g.fh) && frame < 256
  {
    forall n :: 0 <= n < v.g.band ==> BandLine(dst, n, s, v, lut, frame, start)
  }

  /** Band b starts at scanline `start`, on line gl0 of character row `row`. */
  ghost predicate BandAt(g: Geom, b: nat, start: nat, row: nat, gl0: nat) {
    g.fh > 0 && start == b * g.band && row == start / g.fh && gl0 == start % g.fh
  }

  function RowOf(g: Geom, b: nat): nat
    requires g.fh > 0
  {
    b * g.band / g.fh
  }

  function StartOf(g: Geom, b: nat): nat { b * g.band }

  /** A chunk's pixel position and byte count, in bands and lines. */
  method Locate(g: Geom, posPx: nat, nBytes: nat, ghost b: nat) returns (start: nat, lines: nat, row: nat, gl0: nat)
    requires g.fh > 0 && g.band > 0 && posPx == StartOf(g, b) * WIDTH && nBytes == 2 * g.band * WIDTH
    ensures BandAt(g, b, start, row, gl0) && lines == g.band
    ensures start == StartOf(g, b) && row == RowOf(g, b) && (start == 0 <==> b == 0) && (b == 0 ==> row == 0)
  {
    DivUnique(posPx, WIDTH, StartOf(g, b), 0);
    DivUnique(nBytes / 2, WIDTH, g.band, 0);
    start, lines := posPx / WIDTH, nBytes / 2 / WIDTH;
    row, gl0 := start / g.fh, start % g.fh;
    if b > 0 {
      MulAtLeast(b, g.band);
    }
  }

  /** Its lines are lines gl0, gl0 + 1, ... of that row, of the parity of their number. */
  lemma BandLines(g: Geom, b: nat, start: nat, row: nat, gl0: nat, n: nat)
    requires Legal(g) && BandAt(g, b, start, row, gl0) && n < g.band
    ensures (start + n) / g.fh == row && (start + n) % g.fh == gl0 + n < g.fh && (start + n) % 2 == n % 2
  {
    hide Legal;
    BandInRow(g, b, n);
  }

  /** A whole frame of scanlines, each showing its line of the picture. */
  ghost predicate FrameShows(fb: seq<Word>, s: Scene, v: View, lut: Wobble.Lut, frame: nat)
    requires frame < 256
  {
    && v.g.fw > 0 && v.g.fh > 0 && WellFormed(s, v.cols, v.rows, v.g.fh)
    && |fb| == HEIGHT * LINE_WORDS
    && forall y :: 0 <= y < HEIGHT ==> BandLine(fb, y, s, v, lut, frame, 0)
  }

  /** The context a visible band is drawn from. */
  function BandContext(v: View, cols: seq<Column>, gl0: nat, offs: seq<int>, any: bool): Context {
    Context(cols, v.cols, v.g.fw, v.g.fh, gl0, v.g.band, v.fx.scanlines, if any then Some(offs) else None)
  }

  ghost predicate OffsetsOf(v: View, lut: Wobble.Lut, frame: nat, start: nat, offs: seq<int>, any: bool)
    requires frame < 256
  {
    && |offs| == v.g.band && (any <==> Wobble.Moves(offs))
    && forall n :: 0 <= n < v.g.band ==> offs[n] == if v.fx.wobble then Wobble.Words(lut, frame, start + n) else 0
  }

  /** The scan's offsets are the frame's displacements, whole words and few. */
  lemma OffsetsAreShifts(v: View, lut: Wobble.Lut, frame: nat, start: nat, offs: seq<int>, any: bool, cx: Context,
                         n: nat)
    requires frame < 256 && v.g.fh > 0 && n < v.g.band && OffsetsOf(v, lut, frame, start, offs, any)
    requires cx.xoff == if any then Some(offs) else None
    ensures -Wobble.MAX_WORDS <= Koff(cx, n) <= Wobble.MAX_WORDS
    ensures 2 * Koff(cx, n) == Shift(v, lut, frame, start + n)
  {
    hide Wobble.Pixels;
    assert offs[n] == if v.fx.wobble then Wobble.Words(lut, frame, start + n) else 0;
    if !any {
      assert !Wobble.Moves(offs);
      assert offs[n] == 0;
    }
  }

  lemma RowIsReady(cols: seq<Column>, s: Scene, fx: Effects, ncols: nat, nrows: nat, fh: nat, r: nat, scan: bool)
    requires WellFormed(s, ncols, nrows, fh) && r < nrows && RowShows(cols, ncols, s, fx, ncols, nrows, fh, r, scan)
    ensures ColumnsReady(cols, ncols, fh, scan)
  {
    hide WellFormed, LookOf;
    forall c | 0 <= c < ncols
      ensures |cols[c].rows| == fh && |cols[c].lut| == 4 && (scan ==> |cols[c].lutDim| == 4)
    {
      assert ColumnIs(cols[c], LookOf(s, fx, ncols, nrows, fh, r, c), scan);
    }
  }

  lemma ContextReady(v: View, cols: seq<Column>, lut: Wobble.Lut, frame: nat, start: nat, gl0: nat, offs: seq<int>,
                     any: bool)
    requires v.g.fh > 0 && v.g.fw % 2 == 0 && v.g.fw >= 8 && TextFits(v.g, v.cols, v.rows) && frame < 256
    requires gl0 + v.g.band <= v.g.fh
    requires ColumnsReady(cols, v.cols, v.g.fh, v.fx.scanlines)
    requires OffsetsOf(v, lut, frame, start, offs, any)
    ensures Ready(BandContext(v, cols, gl0, offs, any))
  {
    hide ColumnsReady, Shift;
    var cx := BandContext(v, cols, gl0, offs, any);
    assert cx.xoff.Some? ==> |cx.xoff.value| == cx.lines;
    forall n | 0 <= n < cx.lines ensures -(cx.ncols * CellWidth(cx)) <= Koff(cx, n) <= LINE_WORDS {
      OffsetsAreShifts(v, lut, frame, start, offs, any, cx, n);
    }
  }

  /** A visible band, from columns that hold its row. */
  method DrawRow(dst: array<Word>, columns: seq<Column>, anyUl: bool, ghost s: Scene, v: View, lut: Wobble.Lut,
                 frame: nat, ghost b: nat, start: nat, row: nat, gl0: nat)
    requires Legal(v.g) && TextFits(v.g, v.cols, v.rows) && frame < 256 && WellFormed(s, v.cols, v.rows, v.g.fh)
    requires BandAt(v.g, b, start, row, gl0) && row < v.rows && dst.Length == v.g.band * LINE_WORDS
    requires RowShows(columns, v.cols, s, v.fx, v.cols, v.rows, v.g.fh, row, v.fx.scanlines)
    requires anyUl <==> AnyUnderlined(columns, v.cols)
    modifies dst
    ensures BandShows(dst[..], s, v, lut, frame, start)
  {
    hide LookOf, WellFormed, Legal, BandAt, Wobble.Words, Ready, Drawn, ShowsLine, Clipped, Shift, RowShows,
         AnyUnderlined, Koff, ColumnsReady, OffsetsOf, BandLine, TextFits;
    BandDividesRow(v.g);
    BandLines(v.g, b, start, row, gl0, v.g.band - 1);
    EvenWidth(v.g);
    var offs, any := BandOffsets(v, lut, frame, start);
    RowIsReady(columns, s, v.fx, v.cols, v.rows, v.g.fh, row, v.fx.scanlines);
    ContextReady(v, columns, lut, frame, start, gl0, offs, any);
    var cx := BandContext(v, columns, gl0, offs, any);
    DrawBand(dst, cx, anyUl, v.cursor, row, v.clip, start);
    forall n | 0 <= n < v.g.band ensures BandLine(dst[..], n, s, v, lut, frame, start) {
      LineFromContext(cx, dst[..], s, v, lut, frame, b, start, row, gl0, offs, any, n);
    }
  }

  method BandOffsets(v: View, lut: Wobble.Lut, frame: nat, start: nat) returns (offs: seq<int>, any: bool)
    requires frame < 256
    ensures OffsetsOf(v, lut, frame, start, offs, any)
  {
    hide Wobble.Words, Wobble.Moves;
    offs, any := Wobble.Offsets(v.fx.wobble, lut, frame, start, v.g.band);
  }

  lemma EvenWidth(g: Geom)
    requires Legal(g)
    ensures g.fw % 2 == 0
  {
  }

  lemma LineFromContext(cx: Context, dst: seq<Word>, s: Scene, v: View, lut: Wobble.Lut, frame: nat,
                        b: nat, start: nat, row: nat, gl0: nat, offs: seq<int>, any: bool, n: nat)
    requires Legal(v.g) && v.g.fw > 0 && v.g.fh > 0 && frame < 256 && WellFormed(s, v.cols, v.rows, v.g.fh)
    requires BandAt(v.g, b, start, row, gl0) && row < v.rows && n < v.g.band
    requires OffsetsOf(v, lut, frame, start, offs, any) && cx == BandContext(v, cx.cols, gl0, offs, any) && Ready(cx)
    requires RowShows(cx.cols, v.cols, s, v.fx, v.cols, v.rows, v.g.fh, row, v.fx.scanlines)
    requires Drawn(cx, dst, v.cursor, row, v.clip, start, n)
    ensures BandLine(dst, n, s, v, lut, frame, start)
  {
    hide LookOf, WellFormed, Legal, BandAt, Wobble.Words, Ready, Drawn, ShowsLine, Shift, RowShows, Koff,
         ColumnsReady, OffsetsOf;
    BandLines(v.g, b, start, row, gl0, n);
    DrawnShows(cx, dst, s, v, row, start, n, start + n);
    OffsetsAreShifts(v, lut, frame, start, offs, any, cx, n);
  }

  // ----------------------------------------------------------------- panel

  /** The registered grid fits the cache and the line, and is wider than any wobble. */
  predicate TextFits(g: Geom, cols: nat, rows: nat) {
    0 < cols <= FONT_MAX_COLS && 0 < rows && Wobble.MAX_WORDS <= cols * (g.fw / 2) <= LINE_WORDS
  }

  /** The grid the terminal registers, as many whole cells as the panel holds, fits. */
  lemma FullGridFits(g: Geom)
    requires Legal(g) && g.fw <= WIDTH
    ensures TextFits(g, WIDTH / g.fw, HEIGHT / g.fh)
  {
    BandDividesRow(g);
    var q, cw := WIDTH / g.fw, g.fw / 2;
    DivMod(WIDTH, g.fw);
    DivMonotone(g.fw, WIDTH, g.fw);
    DivUnique(g.fw, g.fw, 1, 0);
    assert q * g.fw == 2 * (q * cw);
    MulAtLeast(q, cw);
    DivMonotone(g.fh, HEIGHT, g.fh);
    DivUnique(g.fh, g.fh, 1, 0);
  }

  const BLINK_FRAMES := 15

  /** render_cursor_tick. */
  function CursorTicked(c: Cursor): Cursor {
    if c.blink + 1 >= BLINK_FRAMES then c.(blink := 0, visible := !c.visible) else c.(blink := c.blink + 1)
  }

  /** display_set_cursor: a cursor that moves is shown at once. */
  function CursorMoved(c: Cursor, x: int, y: int, mode: CursorMode): Cursor {
    if x != c.x || y != c.y then Cursor(x, y, mode, 0, true) else c.(mode := mode)
  }

  /** The row the cache holds, and the scene it was built from. */
  datatype Held = Held(row: int, scene: Scene)

  /** What the next band depends on besides the scene: snapshot, countdowns, cursor and
      the row held. */
  datatype Display = Display(snap: Effects, fx: Fx, cursor: Cursor, held: Option<Held>)

  /** A frame tick. No row held before it is drawn from after it. */
  function TickedDisplay(d: Display, published: Option<Effects>): Display {
    Display(if published.Some? then published.value else d.snap, Ticked(d.fx), CursorTicked(d.cursor), None)
  }

  /** What a band in row `row` shows, and what is held afterwards: a row already held is
      shown as it was built; a hidden band holds nothing. */
  function Shown(g: Geom, rows: nat, c: Clip, held: Option<Held>, start: nat, row: nat, s: Scene)
    : (Option<Held>, Scene)
  {
    if row >= rows then (held, s)
    else if BandHidden(c, start, g.band) then (None, s)
    else if held.Some? && held.value.row == row then (held, held.value.scene)
    else (Some(Held(row, s)), s)
  }

  /** Band b, drawn in this state: the state after it and the scene it shows. */
  function AfterBand(g: Geom, rows: nat, d: Display, b: nat, s: Scene, published: Option<Effects>): (Display, Scene)
    requires g.fh > 0
  {
    var now := if b == 0 then TickedDisplay(d, published) else d;
    var (held, scene) := Shown(g, rows, Window(now.fx), now.held, StartOf(g, b), RowOf(g, b), s);
    (now.(held := held), scene)
  }

  function ViewOf(g: Geom, cols: nat, rows: nat, d: Display): View {
    View(g, cols, rows, d.snap, d.cursor, Window(d.fx))
  }

  class Panel {
    var g: Geom
    const cache: Cache
    /** The registered text grid; nothing is drawn while it is empty. */
    var cols: nat
    var rows: nat
    /** The frame counter, a byte, and the whole run's. */
    var frame: nat
    ghost var age: nat
    var snap: Effects
    var fx: Fx
    var cursor: Cursor

    predicate Registered()
      reads this
    {
      cols > 0 && rows > 0
    }

    /** Between calls: the cache is empty or was built in the current frame, from the
        current snapshot. */
    ghost predicate Valid()
      reads this, cache
    {
      && Legal(g) && frame == Tag(age) && Inv(fx)
      && (if Registered() then TextFits(g, cols, rows) else cache.row == -1)
      && cache.Holds(cols, rows, g.fh) && cache.Fresh(age)
      && (cache.row >= 0 ==> cache.fx == snap && cache.scan == snap.scanlines)
    }

    /** What is drawn now. */
    function Now(): View
      reads this
    {
      View(g, cols, rows, snap, cursor, Window(fx))
    }

    /** The row held, unless the cache is empty. */
    ghost function HeldNow(): Option<Held>
      reads this, cache
    {
      if cache.row >= 0 then Some(Held(cache.row, cache.scene)) else None
    }

    ghost function State(): Display
      reads this, cache
    {
      Display(snap, fx, cursor, HeldNow())
    }

    constructor (f: Effects, c: Cursor, s: Scene)
      ensures Valid() && !Registered() && fresh(cache) && g == Geom(8, 16, 16) && snap == f && cursor == c && fx == OFF
    {
      cache := new Cache(s, f);
      g := Geom(8, 16, 16);
      cols, rows, frame, age := 0, 0, 0, 0;
      snap, fx, cursor := f, OFF, c;
    }

    /** display_render_set_font: a size that would not tile the panel changes nothing. Once a
        grid is registered it must still fit. */
    method SetFont(width: int, height: int, published: Option<Effects>)
      requires Valid()
      requires Registered() && Accepts(width, height) ==> TextFits(Geom(width, height, BandOf(height)), cols, rows)
      modifies this, cache
      ensures Valid()
      ensures if Accepts(width, height)
              then g == Geom(width, height, BandOf(height)) && HeldNow() == None
                   && snap == (if published.Some? then published.value else old(snap))
              else g == old(g) && State() == old(State())
      ensures cols == old(cols) && rows == old(rows) && age == old(age) && fx == old(fx) && cursor == old(cursor)
    {
      if Accepts(width, height) {
        g := Geom(width, height, BandOf(height));
        cache.Invalidate();
        if published.Some? {
          snap := published.value;
        }
      }
    }

    /** display_set_text_buffer, called once. */
    method SetTextBuffer(c: nat, r: nat)
      requires Valid() && !Registered() && TextFits(g, c, r)
      modifies this`cols, this`rows
      ensures Valid() && cols == c && rows == r
    {
      cols, rows := c, r;
    }

    /** A store of an arming call lands between two bands. */
    method ArmingStep(step: Step)
      requires Valid() && step != Tick
      modifies this`fx
      ensures Valid() && fx == Next(old(fx), step)
    {
      fx := Next(fx, step);
    }

    /** display_set_cursor. */
    method SetCursor(x: int, y: int, mode: CursorMode)
      requires Valid()
      modifies this`cursor
      ensures Valid() && cursor == CursorMoved(old(cursor), x, y, mode)
      ensures cursor.x == x && cursor.y == y && cursor.mode == mode
      ensures if x == old(cursor.x) && y == old(cursor.y)
              then cursor.blink == old(cursor.blink) && cursor.visible == old(cursor.visible)
              else cursor.blink == 0 && cursor.visible
    {
      var blink, visible := cursor.blink, cursor.visible;
      if x != cursor.x || y != cursor.y {
        blink, visible := 0, true;
      }
      cursor := Cursor(x, y, mode, blink, visible);
    }

    /** The per-frame tick: the snapshot, unless a setter is at work, and the counters. */
    method FrameTick(published: Option<Effects>)
      modifies this`snap, this`frame, this`age, this`fx, this`cursor
      requires frame == Tag(age) && Inv(fx)
      ensures frame == Tag(age) && age == old(age) + 1 && fx == Ticked(old(fx)) && cursor == CursorTicked(old(cursor))
      ensures snap == if published.Some? then published.value else old(snap)
      ensures Inv(fx)
    {
      hide CursorTicked, Inv, Ticked;
      TickKeepsInv(fx);
      if published.Some? {
        snap := published.value;
      }
      frame := (frame + 1) % 256;
      age := age + 1;
      fx := Ticked(fx);
      TickCursor();
    }

    /** render_cursor_tick. */
    method TickCursor()
      modifies this`cursor
      ensures cursor == CursorTicked(old(cursor))
    {
      var blink := cursor.blink + 1;
      if blink >= BLINK_FRAMES {
        cursor := cursor.(blink := 0, visible := !cursor.visible);
      } else {
        cursor := cursor.(blink := blink);
      }
    }

    /** A visible band of the text area. */
    method DrawVisible(dst: array<Word>, ghost b: nat, start: nat, row: nat, gl0: nat, s: Scene, lut: Wobble.Lut)
      requires Legal(g) && TextFits(g, cols, rows) && frame == Tag(age)
      requires cache.Holds(cols, rows, g.fh) && WellFormed(s, cols, rows, g.fh)
      requires cache.row >= 0 ==> age - 1 <= cache.built <= age
      requires cache.Fresh(age) && cache.row >= 0 ==> cache.fx == snap && cache.scan == snap.scanlines
      requires BandAt(g, b, start, row, gl0) && row < rows && dst.Length == g.band * LINE_WORDS
      modifies cache, dst
      ensures cache.Holds(cols, rows, g.fh) && cache.Fresh(age) && cache.row == row
      ensures cache.fx == snap && cache.scan == snap.scanlines
      ensures if old(cache.Fresh(age)) && old(cache.row) == row
              then cache.cols == old(cache.cols) && cache.scene == old(cache.scene)
              else cache.scene == s
      ensures WellFormed(cache.scene, cols, rows, g.fh)
      ensures BandShows(dst[..], cache.scene, Now(), lut, frame, start)
    {
      hide RowShows, WellFormed, Legal, BandAt, BandShows, Window, AnyUnderlined, Cache.Holds, Cache.Fresh;
      BandDividesRow(g);
      cache.Resolve(s, snap, cols, rows, g.fh, row, snap.scanlines, frame, age);
      DrawRow(dst, cache.cols, cache.anyUl, cache.scene, Now(), lut, frame, b, start, row, gl0);
    }

    /** After the tick: black below the text, the shortcut for a hidden band, else the
        band itself. */
    method DrawLocated(dst: array<Word>, ghost b: nat, start: nat, lines: nat, row: nat, gl0: nat, s: Scene,
                       lut: Wobble.Lut)
      returns (ghost shown: Scene)
      requires Legal(g) && TextFits(g, cols, rows) && frame == Tag(age)
      requires cache.Holds(cols, rows, g.fh) && WellFormed(s, cols, rows, g.fh)
      requires cache.row >= 0 ==> age - 1 <= cache.built <= age
      requires cache.Fresh(age) && cache.row >= 0 ==> cache.fx == snap && cache.scan == snap.scanlines
      requires !cache.Fresh(age) ==> row == 0
      requires BandAt(g, b, start, row, gl0) && lines == g.band && dst.Length == g.band * LINE_WORDS
      modifies cache, dst
      ensures cache.Holds(cols, rows, g.fh) && cache.Fresh(age)
      ensures cache.row >= 0 ==> cache.fx == snap && cache.scan == snap.scanlines
      ensures WellFormed(shown, cols, rows, g.fh) && BandShows(dst[..], shown, Now(), lut, frame, start)
      ensures (HeldNow(), shown) ==
              Shown(g, rows, Window(fx), if old(cache.Fresh(age)) then old(HeldNow()) else None, start, row, s)
      ensures old(cache.Fresh(age)) && old(cache.row) == row && cache.row >= 0 ==> cache.cols == old(cache.cols)
    {
      hide BandAt, BandShows, Window, WellFormed, RowShows, AnyUnderlined, Legal, LineHidden, BandHidden;
      BandDividesRow(g);
      shown := s;
      if row >= rows {
        FillSpan(dst, 0, 0, dst.Length, 0);
        BlackShows(dst[..], s, Now(), lut, frame, b, start, row, gl0);
        return;
      }
      var clip := Window(fx);
      if BandHidden(clip, start, lines) {
        cache.Invalidate();
        FillHidden(dst, start, lines, clip);
        HiddenShows(dst[..], s, Now(), lut, frame, b, start, row, gl0);
        return;
      }
      DrawVisible(dst, b, start, row, gl0, s, lut);
      shown := cache.scene;
    }

    /** display_render_chunk for band b. Whatever the shell did since the last call, the
        band shows the reference picture of the scene as it is now, or as it was when
        this row's first band was drawn in this frame: both halves of a tall row use one
        build, and no build outlives its frame. */
    method RenderChunk(dst: array<Word>, posPx: nat, nBytes: nat, ghost b: nat, s: Scene, lut: Wobble.Lut,
                       published: Option<Effects>)
      returns (ghost shown: Scene)
      requires Valid() && WellFormed(s, cols, rows, g.fh)
      requires posPx == StartOf(g, b) * WIDTH && nBytes == 2 * g.band * WIDTH && dst.Length == g.band * LINE_WORDS
      modifies this`snap, this`frame, this`age, this`fx, this`cursor, cache, dst
      ensures Valid()
      ensures if Registered() && b == 0
              then age == old(age) + 1 && fx == Ticked(old(fx)) && cursor == CursorTicked(old(cursor))
                   && snap == (if published.Some? then published.value else old(snap))
              else age == old(age) && fx == old(fx) && cursor == old(cursor) && snap == old(snap)
      ensures !Registered() ==> forall j :: 0 <= j < dst.Length ==> dst[j] == 0
      ensures WellFormed(shown, cols, rows, g.fh)
      ensures Registered() ==> BandShows(dst[..], shown, Now(), lut, frame, StartOf(g, b))
      ensures Registered() ==> (State(), shown) == AfterBand(g, rows, old(State()), b, s, published)
      ensures b > 0 && old(cache.row) == RowOf(g, b) && cache.row >= 0 ==> cache.cols == old(cache.cols)
    {
      hide BandAt, RowOf, StartOf, BandShows, Window, WellFormed, RowShows, AnyUnderlined, CursorTicked, Legal, Inv;
      if !Registered() {
        FillSpan(dst, 0, 0, dst.Length, 0);
        shown := s;
        return;
      }
      BandDividesRow(g);
      var start, lines, row, gl0 := Locate(g, posPx, nBytes, b);
      if start == 0 {
        FrameTick(published);
      }
      shown := DrawLocated(dst, b, start, lines, row, gl0, s, lut);
    }

    /** One frame, band by band, over a scene that holds still: the bands together are
        the whole reference picture, every scanline of the panel once. */
    method RenderFrame(s: Scene, lut: Wobble.Lut, published: Option<Effects>) returns (fb: seq<Word>)
      requires Valid() && Registered() && WellFormed(s, cols, rows, g.fh)
      modifies this`snap, this`frame, this`age, this`fx, this`cursor, cache
      ensures Valid() && Registered() && WellFormed(s, cols, rows, g.fh)
      ensures age == old(age) + 1 && fx == Ticked(old(fx)) && cursor == CursorTicked(old(cursor))
      ensures snap == if published.Some? then published.value else old(snap)
      ensures FrameShows(fb, s, Now(), lut, frame)
    {
      hide BandLine, BandShows, Window, WellFormed, RowShows, AnyUnderlined, CursorTicked, Legal, Inv;
      BandDividesRow(g);
      BandsTilePanel(g, 0);
      fb := RenderFirst(s, lut, published);
      var b := 1;
      while b < HEIGHT / g.band
        invariant Valid() && 1 <= b <= HEIGHT / g.band
        invariant age == old(age) + 1 && fx == Ticked(old(fx)) && cursor == CursorTicked(old(cursor))
        invariant snap == if published.Some? then published.value else old(snap)
        invariant cache.row >= 0 ==> cache.scene == s
        invariant |fb| == StartOf(g, b) * LINE_WORDS
        invariant forall y :: 0 <= y < StartOf(g, b) ==> BandLine(fb, y, s, Now(), lut, frame, 0)
      {
        fb := RenderNext(fb, b, s, lut, published);
        NextBand(b, g.band);
        b := b + 1;
      }
    }

    /** A later band, which does not tick. */
    method RenderNext(above: seq<Word>, b: nat, s: Scene, lut: Wobble.Lut, published: Option<Effects>)
        returns (fb: seq<Word>)
      requires Valid() && Registered() && WellFormed(s, cols, rows, g.fh) && b > 0
               && (cache.row >= 0 ==> cache.scene == s)
      requires |above| == StartOf(g, b) * LINE_WORDS
      requires forall y :: 0 <= y < StartOf(g, b) ==> BandLine(above, y, s, Now(), lut, frame, 0)
      modifies this`snap, this`frame, this`age, this`fx, this`cursor, cache
      ensures Valid() && age == old(age) && fx == old(fx) && cursor == old(cursor) && snap == old(snap)
      ensures cache.row >= 0 ==> cache.scene == s
      ensures |fb| == StartOf(g, b) * LINE_WORDS + g.band * LINE_WORDS
      ensures WellFormed(s, cols, rows, g.fh)
      ensures forall y :: 0 <= y < StartOf(g, b) + g.band ==> BandLine(fb, y, s, Now(), lut, frame, 0)
    {
      hide BandLine, BandShows, Window, WellFormed, RowShows, AnyUnderlined, CursorTicked, Legal, Inv;
      BandDividesRow(g);
      var dst := new Word[g.band * LINE_WORDS];
      var start := StartOf(g, b);
      ghost var shown := RenderChunk(dst, start * WIDTH, 2 * g.band * WIDTH, b, s, lut, published);
      AppendBand(above, dst[..], s, Now(), lut, frame, start);
      fb := above + dst[..];
    }

    /** Band 0, which ticks. */
    method RenderFirst(s: Scene, lut: Wobble.Lut, published: Option<Effects>) returns (fb: seq<Word>)
      requires Valid() && Registered() && WellFormed(s, cols, rows, g.fh)
      modifies this`snap, this`frame, this`age, this`fx, this`cursor, cache
      ensures Valid() && Registered() && WellFormed(s, cols, rows, g.fh)
      ensures age == old(age) + 1 && fx == Ticked(old(fx)) && cursor == CursorTicked(old(cursor))
      ensures snap == if published.Some? then published.value else old(snap)
      ensures cache.row >= 0 ==> cache.scene == s
      ensures |fb| == g.band * LINE_WORDS
      ensures forall y :: 0 <= y < g.band ==> BandLine(fb, y, s, Now(), lut, frame, 0)
    {
      hide BandLine, Window, WellFormed, RowShows, AnyUnderlined, CursorTicked, Legal, Inv;
      BandDividesRow(g);
      var dst := new Word[g.band * LINE_WORDS];
      ghost var shown := RenderChunk(dst, 0, 2 * g.band * WIDTH, 0, s, lut, published);
      fb := dst[..];
    }
  }

  lemma NextBand(b: nat, band: nat)
    ensures (b + 1) * band == b * band + band
    ensures (b * band + band) * LINE_WORDS == b * band * LINE_WORDS + band * LINE_WORDS
  {
  }

  /** A band appended to the lines above it. */
  lemma AppendBand(fb: seq<Word>, dst: seq<Word>, s: Scene, v: View, lut: Wobble.Lut, frame: nat, start: nat)
    requires v.g.fw > 0 && v.g.fh > 0 && WellFormed(s, v.cols, v.rows, v.g.fh) && frame < 256
    requires |fb| == start * LINE_WORDS && |dst| == v.g.band * LINE_WORDS
    requires forall y :: 0 <= y < start ==> BandLine(fb, y, s, v, lut, frame, 0)
    requires BandShows(dst, s, v, lut, frame, start)
    ensures forall y :: 0 <= y < start + v.g.band ==> BandLine(fb + dst, y, s, v, lut, frame, 0)
  {
    hide WellFormed, Shift, PanelPixel, BandLine;
    forall y | 0 <= y < start + v.g.band ensures BandLine(fb + dst, y, s, v, lut, frame, 0) {
      if y < start {
        MoveLine(fb, y, fb + dst, y, s, v, lut, frame, 0, 0);
      } else {
        MoveLine(dst, y - start, fb + dst, y, s, v, lut, frame, start, 0);
      }
    }
  }

  /** A line copied to another buffer still shows its scanline. */
  lemma MoveLine(from: seq<Word>, m: nat, to: seq<Word>, n: nat, s: Scene, v: View, lut: Wobble.Lut, frame: nat,
                 from0: nat, to0: nat)
    requires v.g.fw > 0 && v.g.fh > 0 && WellFormed(s, v.cols, v.rows, v.g.fh) && frame < 256
    requires BandLine(from, m, s, v, lut, frame, from0) && from0 + m == to0 + n
    requires (m + 1) * LINE_WORDS <= |from| && (n + 1) * LINE_WORDS <= |to|
    requires to[n * LINE_WORDS..(n + 1) * LINE_WORDS] == from[m * LINE_WORDS..(m + 1) * LINE_WORDS]
    ensures BandLine(to, n, s, v, lut, frame, to0)
  {
    hide WellFormed, Shift, PanelPixel, LeftOf, RightOf;
    var y := to0 + n;
    var shift := Shift(v, lut, frame, y);
    forall i | 0 <= i < LINE_WORDS ensures ShowsWord(to, n, s, v, shift, i, y) {
      assert ShowsWord(from, m, s, v, shift, i, y);
      assert to[n * LINE_WORDS..(n + 1) * LINE_WORDS][i] == from[m * LINE_WORDS..(m + 1) * LINE_WORDS][i];
    }
  }

  /** Below the text the picture is black. */
  lemma BlackShows(dst: seq<Word>, s: Scene, v: View, lut: Wobble.Lut, frame: nat, b: nat, start: nat, row: nat,
                   gl0: nat)
    requires Legal(v.g) && v.g.fw > 0 && v.g.fh > 0 && WellFormed(s, v.cols, v.rows, v.g.fh) && frame < 256
    requires BandAt(v.g, b, start, row, gl0) && row >= v.rows
    requires |dst| == v.g.band * LINE_WORDS && forall j :: 0 <= j < |dst| ==> dst[j] == 0
    ensures BandShows(dst, s, v, lut, frame, start)
  {
    hide Legal, WellFormed, Shift, LeftOf, RightOf, TextPixel, ClippedPixel;
    BlackParts();
    forall n | 0 <= n < v.g.band ensures BandLine(dst, n, s, v, lut, frame, start) {
      BandLines(v.g, b, start, row, gl0, n);
    }
  }

  /** A hidden line shows the same whatever lies under it. */
  lemma HiddenPixel(c: Clip, y0: int, lines: nat, y: int, p: Color)
    requires BandHidden(c, y0, lines) && y0 <= y < y0 + lines
    ensures LeftOf(HiddenWord(c, y)) == ClippedPixel(c, y, p) && RightOf(HiddenWord(c, y)) == ClippedPixel(c, y, p)
  {
    hide LeftOf, RightOf, Pair, Clipped, HiddenWord, ClippedPixel, BandHidden;
    var w := Pair(p, p);
    PairParts(p, p);
    HiddenIsClipped(c, y0, lines, y, w);
    ClippedParts(c, y, w);
  }

  /** The shortcut for a hidden band draws what rendering and clipping would. */
  lemma HiddenShows(dst: seq<Word>, s: Scene, v: View, lut: Wobble.Lut, frame: nat, b: nat, start: nat, row: nat,
                    gl0: nat)
    requires Legal(v.g) && v.g.fw > 0 && v.g.fh > 0 && WellFormed(s, v.cols, v.rows, v.g.fh) && frame < 256
    requires BandAt(v.g, b, start, row, gl0) && row < v.rows && BandHidden(v.clip, start, v.g.band)
    requires forall n :: 0 <= n < v.g.band ==> LineHidden(dst, start, n, v.clip)
    ensures BandShows(dst, s, v, lut, frame, start)
  {
    hide Legal, WellFormed, Shift, LeftOf, RightOf, TextPixel, ClippedPixel, BandHidden, HiddenWord;
    forall n | 0 <= n < v.g.band ensures BandLine(dst, n, s, v, lut, frame, start) {
      BandLines(v.g, b, start, row, gl0, n);
      HiddenLineShows(dst, s, v, start, n, Shift(v, lut, frame, start + n));
    }
  }

  lemma HiddenLineShows(dst: seq<Word>, s: Scene, v: View, start: nat, n: nat, shift: int)
    requires v.g.fw > 0 && v.g.fh > 0 && WellFormed(s, v.cols, v.rows, v.g.fh)
    requires n < v.g.band && (start + n) / v.g.fh < v.rows && BandHidden(v.clip, start, v.g.band)
             && LineHidden(dst, start, n, v.clip)
    ensures ShowsLine(dst, n, s, v, shift, start + n)
  {
    hide WellFormed, LeftOf, RightOf, TextPixel, ClippedPixel, BandHidden, HiddenWord;
    var y := start + n;
    forall i | 0 <= i < LINE_WORDS ensures ShowsWord(dst, n, s, v, shift, i, y) {
      assert dst[n * LINE_WORDS + i] == HiddenWord(v.clip, y);
      HiddenPixel(v.clip, start, v.g.band, y, TextOrBlack(s, v, 2 * i - shift, y));
      HiddenPixel(v.clip, start, v.g.band, y, TextOrBlack(s, v, 2 * i + 1 - shift, y));
    }
  }
}
