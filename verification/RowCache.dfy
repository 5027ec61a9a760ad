/** The column cache: a character row's glyphs and colours, resolved once per row and
    frame and tagged with row, scanline mode and an 8-bit frame number
    (components/display/render_cache.c). */
module RowCache {
  import opened FontTypes
  import opened Pixels
  import opened Geometry
  import opened Picture

  /** One column: decoded rows, and per variant (plain, dimmed) the pair table and the
      background and foreground-xor-background colours. */
  datatype Column = Column(rows: Cell, lut: seq<Word>, bg: Color, xf: Color,
                           lutDim: seq<Word>, bgDim: Color, xfDim: Color, underline: bool)

  const EMPTY := Column([], [], 0, 0, [], 0, 0, false)

  /** The column shows this look; the dimmed variant is only kept up with `scan` on. */
  predicate ColumnIs(col: Column, l: Look, scan: bool) {
    && col.rows == l.glyph && col.underline == l.underline
    && col.lut == PairLut(l.fg, l.bg) && col.bg == l.bg && col.xf == Xor(l.fg, l.bg)
    && (scan ==> col.lutDim == PairLut(Dim565(l.fg), Dim565(l.bg)) && col.bgDim == Dim565(l.bg)
                 && col.xfDim == Xor(Dim565(l.fg), Dim565(l.bg)))
  }

  /** Columns 0 to n show row r of the scene. */
  ghost predicate RowShows(cols: seq<Column>, n: nat, s: Scene, fx: Effects, ncols: nat, nrows: nat, fh: nat, r: nat,
                           scan: bool)
    requires WellFormed(s, ncols, nrows, fh) && r < nrows && n <= ncols
  {
    n <= |cols| && forall c :: 0 <= c < n ==> ColumnIs(cols[c], LookOf(s, fx, ncols, nrows, fh, r, c), scan)
  }

  /** One column of build_row_cache; without `scan` the dimmed variant keeps whatever an
      earlier build left there. */
  function BuildColumn(prev: Column, l: Look, scan: bool): Column {
    var plain := prev.(rows := l.glyph, underline := l.underline, lut := PairLut(l.fg, l.bg), bg := l.bg,
        xf := Xor(l.fg, l.bg));
    if !scan then plain
    else
      var fgd, bgd := Dim565(l.fg), Dim565(l.bg);
      plain.(lutDim := PairLut(fgd, bgd), bgDim := bgd, xfDim := Xor(fgd, bgd))
  }

  lemma ColumnShows(prev: Column, l: Look, scan: bool)
    ensures ColumnIs(BuildColumn(prev, l, scan), l, scan)
  {
    hide Dim565, PairLut, Xor;
  }

  predicate AnyUnderlined(cols: seq<Column>, n: nat)
    requires n <= |cols|
  {
    exists c :: 0 <= c < n && cols[c].underline
  }

  /** The colours of an overlay cell (resolve_overlay_cell). */
  method ResolveOverlayCell(o: OverlayCell, ovFg: Color, ovBg: Color) returns (fg: Color, bg: Color)
    ensures Colors(fg, bg, false, false) == ResolveOverlay(o, ovFg, ovBg)
  {
    hide AccentBar, AccentText, Tint565, Wash565;
    if o.inverse {
      bg := AccentBar(o.color);
      fg := ovBg;
      if o.color >= 1 && o.color <= 6 && !o.bright {
        fg := Tint565(bg);
      }
    } else {
      fg := ovFg;
      if o.color != 0 {
        fg := AccentText(o.color);
      }
      bg := ovBg;
    }
    if o.bright {
      bg := Wash565(bg);
    }
  }

  /** The colours of a terminal cell (resolve_terminal_cell). */
  method ResolveTerminalCell(t: TermCell, dim: bool) returns (fg: Color, bg: Color)
    ensures Colors(fg, bg, t.underline, t.bold) == ResolveTerminal(t, dim)
  {
    hide Scrim565;
    fg, bg := t.fg, t.bg;
    if t.reverse {
      fg, bg := bg, fg;
    }
    if dim {
      fg, bg := Scrim565(fg), Scrim565(bg);
    }
  }

  /** Mono flattens everything onto one ramp; bold pop then brightens within it. */
  method FinishCell(fx: Effects, k: Colors, glyph: Cell) returns (look: Look)
    ensures look == Finish(fx, k, glyph)
  {
    hide Mono565, BoldPop565;
    var fg, bg := k.fg, k.bg;
    if fx.mono != 0 {
      fg, bg := Mono565(fg, fx.mono), Mono565(bg, fx.mono);
    }
    if k.bold && fx.boldPop {
      fg := BoldPop565(fg);
    }
    look := Look(glyph, fg, bg, k.underline);
  }

  /** One cell of the row: what it shows before any scanline effect. */
  method ResolveCell(s: Scene, fx: Effects, ncols: nat, nrows: nat, fh: nat, r: nat, c: nat) returns (look: Look)
    requires WellFormed(s, ncols, nrows, fh) && r < nrows && c < ncols
    ensures look == LookOf(s, fx, ncols, nrows, fh, r, c)
  {
    hide ResolveOverlay, ResolveTerminal, Finish, Blank;
    var covered := s.overlay.Some? && r < s.overlay.value.rows && c < s.overlay.value.cols;
    var glyph, fg, bg, underline, bold;
    if covered && s.overlay.value.cells[r][c].cp != 0 {
      var o := s.overlay.value.cells[r][c];
      fg, bg := ResolveOverlayCell(o, s.ovFg, s.ovBg);
      glyph, underline, bold := s.glyphs(o.cp, o.bold), false, false;
    } else {
      var t := s.cells[r][c];
      fg, bg := ResolveTerminalCell(t, covered && s.overlay.value.cells[r][c].dim);
      underline, bold := t.underline, t.bold;
      if t.cp == 0x20 || t.cp == 0 {
        glyph := Blank(fh);
      } else {
        glyph := s.glyphs(t.cp, t.bold);
      }
    }
    look := FinishCell(fx, Colors(fg, bg, underline, bold), glyph);
  }

  /** build_row_cache: fill columns 0 to ncols. */
  method BuildRow(before: seq<Column>, s: Scene, fx: Effects, ncols: nat, nrows: nat, fh: nat, r: nat, scan: bool)
    returns (cols: seq<Column>, anyUl: bool)
    requires WellFormed(s, ncols, nrows, fh) && r < nrows && ncols <= |before|
    ensures |cols| == |before| && RowShows(cols, ncols, s, fx, ncols, nrows, fh, r, scan)
    ensures anyUl <==> AnyUnderlined(cols, ncols)
    ensures forall c :: ncols <= c < |cols| ==> cols[c] == before[c]
  {
    hide LookOf, ColumnIs, WellFormed, BuildColumn;
    cols := before;
    anyUl := false;
    var c := 0;
    while c < ncols
      invariant 0 <= c <= ncols && |cols| == |before|
      invariant RowShows(cols, c, s, fx, ncols, nrows, fh, r, scan)
      invariant anyUl <==> AnyUnderlined(cols, c)
      invariant forall k :: c <= k < |cols| ==> cols[k] == before[k]
    {
      var look := ResolveCell(s, fx, ncols, nrows, fh, r, c);
      var col := BuildColumn(cols[c], look, scan);
      ColumnShows(cols[c], look, scan);
      UnderlinedUpdate(cols, c, col);
      cols := cols[c := col];
      anyUl := anyUl || col.underline;
      c := c + 1;
    }
  }

  lemma UnderlinedUpdate(cols: seq<Column>, c: nat, col: Column)
    requires c < |cols|
    ensures AnyUnderlined(cols[c := col], c + 1) <==> AnyUnderlined(cols, c) || col.underline
  {
    var more := cols[c := col];
    if AnyUnderlined(cols, c) {
      var k :| 0 <= k < c && cols[k].underline;
      assert more[k].underline;
    }
    if col.underline {
      assert more[c].underline;
    }
  }

  // ---------------------------------------------------------- tagged cache

  /** The frame number as the program stores it, in a byte. */
  function Tag(age: nat): nat { age % 256 }

  class Cache {
    var cols: seq<Column>
    var anyUl: bool
    var row: int
    var scan: bool
    var frame: nat
    /** What the columns were built from, and in which frame of the whole run. */
    ghost var scene: Scene
    ghost var fx: Effects
    ghost var built: nat

    /** The held row shows the scene it was built from. */
    ghost predicate Holds(ncols: nat, nrows: nat, fh: nat)
      reads this
    {
      && |cols| == FONT_MAX_COLS && -1 <= row && frame == Tag(built)
      && (row >= 0 ==>
            && row < nrows && ncols <= FONT_MAX_COLS && WellFormed(scene, ncols, nrows, fh)
            && RowShows(cols, ncols, scene, fx, ncols, nrows, fh, row, scan)
            && (anyUl <==> AnyUnderlined(cols, ncols)))
    }

    /** The cache is empty, or was built in frame `age`. */
    ghost predicate Fresh(age: nat)
      reads this
    {
      row == -1 || built == age
    }

    constructor (s: Scene, f: Effects)
      ensures cols == seq(FONT_MAX_COLS, _ => EMPTY) && row == -1 && frame == 0 && built == 0
    {
      cols := seq(FONT_MAX_COLS, _ => EMPTY);
      anyUl, row, scan, frame := false, -1, false, 0;
      scene, fx, built := s, f, 0;
    }

    /** render_cache_invalidate. */
    method Invalidate()
      modifies this`row
      ensures row == -1
    {
      row := -1;
    }

    /** render_cache_resolve: rebuild unless row, scanline mode and frame byte all match.
        The byte is enough for a cache that is fresh or one frame old: afterwards the
        columns show this row, built in this very frame. */
    method Resolve(s: Scene, f: Effects, ncols: nat, nrows: nat, fh: nat, r: nat, scanOn: bool, frameByte: nat,
                   ghost age: nat)
      requires Holds(ncols, nrows, fh) && WellFormed(s, ncols, nrows, fh) && r < nrows && ncols <= FONT_MAX_COLS
      requires frameByte == Tag(age)
      requires row >= 0 ==> age - 1 <= built <= age
      requires Fresh(age) && row >= 0 ==> fx == f
      modifies this
      ensures Holds(ncols, nrows, fh) && Fresh(age) && row == r && scan == scanOn && fx == f
      ensures WellFormed(scene, ncols, nrows, fh) && |cols| == FONT_MAX_COLS
      ensures RowShows(cols, ncols, scene, f, ncols, nrows, fh, r, scanOn) && (anyUl <==> AnyUnderlined(cols, ncols))
      ensures if old(Fresh(age)) && old(row) == r && old(scan) == scanOn
              then cols == old(cols) && scene == old(scene) && anyUl == old(anyUl)
              else scene == s
    {
      hide RowShows, AnyUnderlined, WellFormed;
      if row != r || scan != scanOn || frame != frameByte {
        cols, anyUl := BuildRow(cols, s, f, ncols, nrows, fh, r, scanOn);
        row, scan, frame := r, scanOn, frameByte;
        scene, fx, built := s, f, age;
      } else {
        TagsApart(built, age);
      }
    }
  }

  /** Consecutive frames never share a byte. */
  lemma TagsApart(built: nat, age: nat)
    requires age - 1 <= built <= age && Tag(built) == Tag(age)
    ensures built == age
  {
  }

  /** The restriction matters: a row left standing for 256 frames would look current. */
  lemma TagWraps(built: nat)
    ensures Tag(built) == Tag(built + 256)
  {
  }

  // ------------------------------------------------------------ cell words

  /** Word w of a column's line gl: the pair table at the glyph's two bits. */
  function ScanWord(col: Column, fw: nat, gl: nat, dim: bool, w: nat): Word
    requires gl < |col.rows| && 2 * w + 2 <= fw && |col.lut| == 4 && (dim ==> |col.lutDim| == 4)
  {
    (if dim then col.lutDim else col.lut)[LutIndex(col.rows[gl], fw, 2 * w)]
  }

  /** The underline colour, from background and difference. */
  function UnderlineWord(col: Column, dim: bool): Word {
    var fg := if dim then Xor(col.bgDim, col.xfDim) else Xor(col.bg, col.xf);
    Pair(fg, fg)
  }

  /** The word after the scan and underline passes. */
  function LinedWord(col: Column, fw: nat, fh: nat, gl: nat, dim: bool, w: nat): Word
    requires gl < |col.rows| && 2 * w + 2 <= fw && |col.lut| == 4 && (dim ==> |col.lutDim| == 4)
  {
    if col.underline && FootLine(gl, fh) then UnderlineWord(col, dim) else ScanWord(col, fw, gl, dim, w)
  }

  /** And after the cursor pass. */
  function DrawnWord(col: Column, fw: nat, fh: nat, gl: nat, dim: bool, cursor: bool, w: nat): Word
    requires gl < |col.rows| && 2 * w + 2 <= fw && |col.lut| == 4 && (dim ==> |col.lutDim| == 4)
  {
    if cursor then Invert(LinedWord(col, fw, fh, gl, dim, w)) else LinedWord(col, fw, fh, gl, dim, w)
  }

  lemma ScanWordIsCell(col: Column, l: Look, scan: bool, fw: nat, gl: nat, dim: bool, w: nat)
    requires ColumnIs(col, l, scan) && (dim ==> scan) && gl < |l.glyph| && 2 * w + 2 <= fw
    ensures var fg, bg := if dim then Dim565(l.fg) else l.fg, if dim then Dim565(l.bg) else l.bg;
            ScanWord(col, fw, gl, dim, w) == Pair(if Bit(l.glyph[gl], fw - 1 - 2 * w) then fg else bg,
                                                  if Bit(l.glyph[gl], fw - 2 - 2 * w) then fg else bg)
  {
    hide LutIndex, Bit, Dim565, PairLut, Pair, Xor, GPair;
    LutIsGPair(l.glyph[gl], fw, 2 * w, if dim then Dim565(l.fg) else l.fg, if dim then Dim565(l.bg) else l.bg);
  }

  /** Tables, underline mask and cursor inversion together draw exactly the reference's
      two pixels. */
  lemma DrawnWordIsCell(col: Column, l: Look, scan: bool, fw: nat, fh: nat, gl: nat, dim: bool, cursor: bool, w: nat)
    requires ColumnIs(col, l, scan) && (dim ==> scan) && |l.glyph| == fh && gl < fh && 2 * w + 2 <= fw
    ensures LeftOf(DrawnWord(col, fw, fh, gl, dim, cursor, w)) == CellPixel(l, fw, fh, gl, 2 * w, dim, cursor)
    ensures RightOf(DrawnWord(col, fw, fh, gl, dim, cursor, w)) == CellPixel(l, fw, fh, gl, 2 * w + 1, dim, cursor)
  {
    hide Dim565, PairLut, LeftOf, RightOf, Invert, InvertPixel, LinedWord, Bit, ColumnIs;
    ColumnTables(col, l, scan);
    LinedWordIsCell(col, l, scan, fw, fh, gl, dim, w);
    InvertParts(LinedWord(col, fw, fh, gl, dim, w));
  }

  lemma ColumnTables(col: Column, l: Look, scan: bool)
    requires ColumnIs(col, l, scan)
    ensures col.rows == l.glyph && |col.lut| == 4 && (scan ==> |col.lutDim| == 4)
  {
  }

  lemma LinedWordIsCell(col: Column, l: Look, scan: bool, fw: nat, fh: nat, gl: nat, dim: bool, w: nat)
    requires ColumnIs(col, l, scan) && (dim ==> scan) && |l.glyph| == fh && gl < fh && 2 * w + 2 <= fw
    ensures LeftOf(LinedWord(col, fw, fh, gl, dim, w)) == CellPixel(l, fw, fh, gl, 2 * w, dim, false)
    ensures RightOf(LinedWord(col, fw, fh, gl, dim, w)) == CellPixel(l, fw, fh, gl, 2 * w + 1, dim, false)
  {
    hide Bit, Dim565, PairLut, LeftOf, RightOf, Pair, Xor, ScanWord;
    var fg, bg := if dim then Dim565(l.fg) else l.fg, if dim then Dim565(l.bg) else l.bg;
    if l.underline && FootLine(gl, fh) {
      XorRecovers(fg, bg);
      PairParts(fg, fg);
    } else {
      ScanWordIsCell(col, l, scan, fw, gl, dim, w);
      PairParts(if Bit(l.glyph[gl], fw - 1 - 2 * w) then fg else bg,
                if Bit(l.glyph[gl], fw - 2 - 2 * w) then fg else bg);
    }
  }

  /** A rebuilt column draws its cell: whatever an earlier build, or another row, left in
      it, every word shows the two reference pixels of the cell it was rebuilt for. */
  lemma RebuiltColumnDraws(prev: Column, l: Look, scan: bool, fw: nat, fh: nat, gl: nat, dim: bool, cursor: bool,
                           w: nat)
    requires (dim ==> scan) && |l.glyph| == fh && gl < fh && 2 * w + 2 <= fw
    ensures ColumnIs(BuildColumn(prev, l, scan), l, scan)
    ensures var word := DrawnWord(BuildColumn(prev, l, scan), fw, fh, gl, dim, cursor, w);
            && LeftOf(word) == CellPixel(l, fw, fh, gl, 2 * w, dim, cursor)
            && RightOf(word) == CellPixel(l, fw, fh, gl, 2 * w + 1, dim, cursor)
  {
    hide BuildColumn, DrawnWord, CellPixel, LeftOf, RightOf, PairLut, Dim565, Xor;
    ColumnShows(prev, l, scan);
    DrawnWordIsCell(BuildColumn(prev, l, scan), l, scan, fw, fh, gl, dim, cursor, w);
  }
}
