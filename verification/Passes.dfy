/** The passes over one band's pixel buffer: the scan, underlines, the cursor and the
    transition clip (components/display/render_scan.c, render_scan.inc and
    render_fx_pass.c). After each pass every line is the shifted image of its cells. */
module Passes {
  import opened Arith
  import opened FontTypes
  import opened Geometry
  import opened Transitions
  import opened Picture
  import opened RowCache
  import Pixels
  import LineScan
  import Wobble

  type Word = bv32
  type CellWords = LineScan.CellWords

  /** What one band is scanned from; `xoff` is None when no line of it moves. */
  datatype Context = Context(cols: seq<Column>, ncols: nat, fw: nat, fh: nat, gl0: nat, lines: nat, scan: bool,
                             xoff: Option<seq<int>>)

  function Koff(cx: Context, n: nat): int
    requires cx.xoff.Some? ==> n < |cx.xoff.value|
  {
    if cx.xoff.Some? then cx.xoff.value[n] else 0
  }

  function CellWidth(cx: Context): nat { cx.fw / 2 }

  predicate ColumnsReady(cols: seq<Column>, ncols: nat, fh: nat, scan: bool) {
    ncols <= |cols| && forall c :: 0 <= c < ncols ==>
      |cols[c].rows| == fh && |cols[c].lut| == 4 && (scan ==> |cols[c].lutDim| == 4)
  }

  /** Cells of a whole number of words that fit the line, a band inside its row, and no
      displacement beyond the text. */
  predicate Ready(cx: Context) {
    && ColumnsReady(cx.cols, cx.ncols, cx.fh, cx.scan)
    && cx.fw % 2 == 0 && CellWidth(cx) > 0 && cx.ncols * CellWidth(cx) <= LINE_WORDS
    && cx.gl0 + cx.lines <= cx.fh
    && (cx.xoff.Some? ==> |cx.xoff.value| == cx.lines)
    && forall n :: 0 <= n < cx.lines ==> -(cx.ncols * CellWidth(cx)) <= Koff(cx, n) <= LINE_WORDS
  }

  predicate Dim(cx: Context, n: nat) { cx.scan && n % 2 == 1 }

  /** Word w of cell c on line n, once the first `ul` columns were underlined and
      column `cur` inverted. */
  function StageWord(cx: Context, n: nat, ul: int, cur: int, c: int, w: int): Word
    requires Ready(cx) && n < cx.lines
  {
    if !(0 <= c < cx.ncols && 0 <= w < CellWidth(cx)) then LineScan.BLACK
    else
      var base := if c < ul then LinedWord(cx.cols[c], cx.fw, cx.fh, cx.gl0 + n, Dim(cx, n), w)
                  else ScanWord(cx.cols[c], cx.fw, cx.gl0 + n, Dim(cx, n), w);
      if c == cur then Pixels.Invert(base) else base
  }

  function Cells(cx: Context, n: nat, ul: int, cur: int): CellWords
    requires Ready(cx) && n < cx.lines
  {
    (c, w) => StageWord(cx, n, ul, cur, c, w)
  }

  /** Word i of line n at that stage: the cell it falls in after displacement. */
  function LineWord(cx: Context, n: nat, ul: int, cur: int, i: int): Word
    requires Ready(cx) && n < cx.lines
  {
    var j := i - Koff(cx, n);
    if 0 <= j < cx.ncols * CellWidth(cx) then StageWord(cx, n, ul, cur, j / CellWidth(cx), j % CellWidth(cx))
    else LineScan.BLACK
  }

  lemma LineWordIsShifted(cx: Context, n: nat, ul: int, cur: int, i: int)
    requires Ready(cx) && n < cx.lines
    ensures LineScan.Shifted(Cells(cx, n, ul, cur), cx.ncols, CellWidth(cx), LINE_WORDS, Koff(cx, n), i) ==
            LineWord(cx, n, ul, cur, i)
  {
    hide StageWord;
  }

  /** Line n of the buffer is at this stage. */
  ghost predicate LineIs(cx: Context, dst: seq<Word>, n: nat, ul: int, cur: int)
    requires Ready(cx) && n < cx.lines
  {
    && |dst| == cx.lines * LINE_WORDS
    && forall i :: 0 <= i < LINE_WORDS ==> dst[n * LINE_WORDS + i] == LineWord(cx, n, ul, cur, i)
  }

  ghost predicate LinesAre(cx: Context, dst: seq<Word>, ul: int, cur: int)
    requires Ready(cx)
  {
    forall n :: 0 <= n < cx.lines ==> LineIs(cx, dst, n, ul, cur)
  }

  /** Writing elsewhere leaves a line alone. */
  lemma LineKept(cx: Context, before: seq<Word>, after: seq<Word>, n: nat, ul: int, cur: int)
    requires Ready(cx) && n < cx.lines && LineIs(cx, before, n, ul, cur) && |after| == |before|
    requires forall j :: n * LINE_WORDS <= j < (n + 1) * LINE_WORDS ==> after[j] == before[j]
    ensures LineIs(cx, after, n, ul, cur)
  {
    hide Ready, LineWord;
  }

  // ------------------------------------------------------------------ scan

  method ScanLine(dst: array<Word>, cx: Context, n: nat)
    requires Ready(cx) && n < cx.lines && dst.Length == cx.lines * LINE_WORDS
    modifies dst
    ensures LineIs(cx, dst[..], n, 0, -1)
    ensures forall j :: 0 <= j < dst.Length && !(n * LINE_WORDS <= j < (n + 1) * LINE_WORDS) ==> dst[j] == old(dst[j])
  {
    hide StageWord, LineWord, ColumnsReady;
    ghost var writes;
    if cx.xoff.None? {
      writes := LineScan.ScanPlain(dst, n * LINE_WORDS, LINE_WORDS, Cells(cx, n, 0, -1), cx.ncols, CellWidth(cx));
    } else {
      writes := LineScan.ScanDisplaced(dst, n * LINE_WORDS, LINE_WORDS, Cells(cx, n, 0, -1), cx.ncols, CellWidth(cx),
          Koff(cx, n));
    }
    forall i | 0 <= i < LINE_WORDS ensures dst[n * LINE_WORDS + i] == LineWord(cx, n, 0, -1, i) {
      LineWordIsShifted(cx, n, 0, -1, i);
    }
  }

  method ScanBand(dst: array<Word>, cx: Context)
    requires Ready(cx) && dst.Length == cx.lines * LINE_WORDS
    modifies dst
    ensures LinesAre(cx, dst[..], 0, -1)
  {
    hide Ready, LineIs;
    var n := 0;
    while n < cx.lines
      invariant 0 <= n <= cx.lines
      invariant forall k :: 0 <= k < n ==> LineIs(cx, dst[..], k, 0, -1)
    {
      ghost var before := dst[..];
      ScanLine(dst, cx, n);
      forall k | 0 <= k < n ensures LineIs(cx, dst[..], k, 0, -1) {
        LineKept(cx, before, dst[..], k, 0, -1);
      }
      n := n + 1;
    }
  }

  // ------------------------------------------------------- spans of a cell

  /** Where cell c of line n lies on the line, clipped to it. */
  function SpanFrom(cx: Context, n: nat, c: int): int
    requires Ready(cx) && n < cx.lines
  {
    if Koff(cx, n) + c * CellWidth(cx) < 0 then 0 else Koff(cx, n) + c * CellWidth(cx)
  }

  function SpanTo(cx: Context, n: nat, c: int): int
    requires Ready(cx) && n < cx.lines
  {
    var w1 := Koff(cx, n) + c * CellWidth(cx) + CellWidth(cx);
    if w1 > LINE_WORDS then LINE_WORDS else w1
  }

  /** The span holds exactly the words the scan drew from that cell: underlines and the
      cursor follow their glyph, and stay on the line. */
  lemma SpanIsCell(cx: Context, n: nat, c: nat, i: int)
    requires Ready(cx) && n < cx.lines && c < cx.ncols && 0 <= i < LINE_WORDS
    ensures SpanFrom(cx, n, c) <= i < SpanTo(cx, n, c) <==>
            0 <= i - Koff(cx, n) < cx.ncols * CellWidth(cx) && (i - Koff(cx, n)) / CellWidth(cx) == c
  {
    hide ColumnsReady;
    var cw, j := CellWidth(cx), i - Koff(cx, n);
    MulMonotone(c + 1, cx.ncols, cw);
    assert (c + 1) * cw == c * cw + cw;
    if SpanFrom(cx, n, c) <= i < SpanTo(cx, n, c) {
      DivUnique(j, cw, c, j - c * cw);
    }
    if 0 <= j && j / cw == c {
      DivMod(j, cw);
    }
  }

  /** A span rewritten, every other word of the buffer kept. */
  ghost predicate SpanRewritten(before: seq<Word>, after: seq<Word>, o: nat, a: int, b: int, f: Word -> Word) {
    && |after| == |before|
    && forall j :: 0 <= j < |after| ==> after[j] == if o + a <= j < o + b then f(before[j]) else before[j]
  }

  method FillSpan(dst: array<Word>, o: nat, a: int, b: int, v: Word)
    requires 0 <= a && o + b <= dst.Length
    modifies dst
    ensures SpanRewritten(old(dst[..]), dst[..], o, a, b, _ => v)
  {
    var w := a;
    while w < b
      invariant a <= w && |dst[..]| == |old(dst[..])|
      invariant forall j :: 0 <= j < dst.Length ==> dst[j] == if o + a <= j < o + w && j < o + b then v else old(dst[j])
    {
      dst[o + w] := v;
      w := w + 1;
    }
  }

  method InvertSpan(dst: array<Word>, o: nat, a: int, b: int)
    requires 0 <= a && o + b <= dst.Length
    modifies dst
    ensures SpanRewritten(old(dst[..]), dst[..], o, a, b, Pixels.Invert)
  {
    hide Pixels.Invert;
    var w := a;
    while w < b
      invariant a <= w && |dst[..]| == |old(dst[..])|
      invariant forall j :: 0 <= j < dst.Length ==>
                  dst[j] == if o + a <= j < o + w && j < o + b then Pixels.Invert(old(dst[j])) else old(dst[j])
    {
      dst[o + w] := Pixels.Invert(dst[o + w]);
      w := w + 1;
    }
  }

  // ------------------------------------------------------------- underline

  /** Underlining column c takes a foot line from stage c to stage c + 1. */
  lemma UnderlineStep(cx: Context, before: seq<Word>, after: seq<Word>, n: nat, c: nat)
    requires Ready(cx) && n < cx.lines && c < cx.ncols && LineIs(cx, before, n, c, -1)
    requires cx.cols[c].underline && FootLine(cx.gl0 + n, cx.fh)
    requires SpanRewritten(before, after, n * LINE_WORDS, SpanFrom(cx, n, c), SpanTo(cx, n, c),
             _ => UnderlineWord(cx.cols[c], Dim(cx, n)))
    ensures LineIs(cx, after, n, c + 1, -1)
  {
    var u := c + 1;
    hide ScanWord, UnderlineWord, ColumnsReady;
    forall i | 0 <= i < LINE_WORDS ensures after[n * LINE_WORDS + i] == LineWord(cx, n, u, -1, i) {
      SpanIsCell(cx, n, c, i);
      assert before[n * LINE_WORDS + i] == LineWord(cx, n, c, -1, i);
    }
  }

  /** Where there is nothing to underline, the stages are the same. */
  lemma NothingToUnderline(cx: Context, dst: seq<Word>, n: nat, c: nat)
    requires Ready(cx) && n < cx.lines && c < cx.ncols && LineIs(cx, dst, n, c, -1)
    requires !cx.cols[c].underline || !FootLine(cx.gl0 + n, cx.fh)
    ensures LineIs(cx, dst, n, c + 1, -1)
  {
    var u := c + 1;
    hide ScanWord, UnderlineWord, ColumnsReady;
    forall i | 0 <= i < LINE_WORDS ensures dst[n * LINE_WORDS + i] == LineWord(cx, n, u, -1, i) {
      assert dst[n * LINE_WORDS + i] == LineWord(cx, n, c, -1, i);
    }
  }

  /** First line of the band that is a foot line. */
  function FirstFoot(cx: Context): int {
    if cx.fh - 2 - cx.gl0 < 0 then 0 else cx.fh - 2 - cx.gl0
  }

  method UnderlineColumn(dst: array<Word>, cx: Context, c: nat)
    requires Ready(cx) && dst.Length == cx.lines * LINE_WORDS && c < cx.ncols && cx.cols[c].underline
    requires LinesAre(cx, dst[..], c, -1)
    modifies dst
    ensures LinesAre(cx, dst[..], c + 1, -1)
  {
    hide LineIs, SpanFrom, SpanTo, UnderlineWord;
    ghost var u := c + 1;
    var n := FirstFoot(cx);
    forall k | 0 <= k < n && k < cx.lines ensures LineIs(cx, dst[..], k, u, -1) {
      NothingToUnderline(cx, dst[..], k, c);
    }
    while n < cx.lines
      invariant FirstFoot(cx) <= n
      invariant forall k :: 0 <= k < n && k < cx.lines ==> LineIs(cx, dst[..], k, u, -1)
      invariant forall k :: n <= k < cx.lines ==> LineIs(cx, dst[..], k, c, -1)
    {
      ghost var before := dst[..];
      SpanOnLine(cx, n, c);
      FillSpan(dst, n * LINE_WORDS, SpanFrom(cx, n, c), SpanTo(cx, n, c), UnderlineWord(cx.cols[c], Dim(cx, n)));
      UnderlineStep(cx, before, dst[..], n, c);
      OtherLines(cx, before, dst[..], n, c, c, u, -1, -1, _ => UnderlineWord(cx.cols[c], Dim(cx, n)));
      n := n + 1;
    }
  }

  lemma SpanOnLine(cx: Context, n: nat, c: nat)
    requires Ready(cx) && n < cx.lines && c < cx.ncols
    ensures 0 <= SpanFrom(cx, n, c) && SpanTo(cx, n, c) <= LINE_WORDS
    ensures n * LINE_WORDS + SpanTo(cx, n, c) <= cx.lines * LINE_WORDS
  {
  }

  /** Rewriting a span of line n leaves the lines before and after at their stages. */
  lemma OtherLines(cx: Context, before: seq<Word>, after: seq<Word>, n: nat, c: nat, ul: int, ul': int, cur: int,
                   cur': int, f: Word -> Word)
    requires Ready(cx) && n < cx.lines && c < cx.ncols && |before| == cx.lines * LINE_WORDS
    requires SpanRewritten(before, after, n * LINE_WORDS, SpanFrom(cx, n, c), SpanTo(cx, n, c), f)
    requires forall k :: 0 <= k < n ==> LineIs(cx, before, k, ul', cur')
    requires forall k :: n < k < cx.lines ==> LineIs(cx, before, k, ul, cur)
    ensures forall k :: 0 <= k < n ==> LineIs(cx, after, k, ul', cur')
    ensures forall k :: n < k < cx.lines ==> LineIs(cx, after, k, ul, cur)
  {
    SpanOnLine(cx, n, c);
    hide LineIs, Ready, SpanFrom, SpanTo;
    forall k | 0 <= k < n ensures LineIs(cx, after, k, ul', cur') {
      LineKept(cx, before, after, k, ul', cur');
    }
    forall k | n < k < cx.lines ensures LineIs(cx, after, k, ul, cur) {
      LineKept(cx, before, after, k, ul, cur);
    }
  }

  /** render_underline_pass. */
  method UnderlinePass(dst: array<Word>, cx: Context, anyUl: bool)
    requires Ready(cx) && dst.Length == cx.lines * LINE_WORDS
    requires anyUl <==> AnyUnderlined(cx.cols, cx.ncols)
    requires LinesAre(cx, dst[..], 0, -1)
    modifies dst
    ensures LinesAre(cx, dst[..], cx.ncols, -1)
  {
    hide LineIs;
    if !anyUl || FirstFoot(cx) >= cx.lines {
      NoUnderlines(cx, dst[..], cx.ncols);
      return;
    }
    var c := 0;
    while c < cx.ncols
      invariant 0 <= c <= cx.ncols
      invariant LinesAre(cx, dst[..], c, -1)
    {
      if cx.cols[c].underline {
        UnderlineColumn(dst, cx, c);
      } else {
        NothingInColumn(cx, dst[..], c);
      }
      c := c + 1;
    }
  }

  lemma NothingInColumn(cx: Context, dst: seq<Word>, c: nat)
    requires Ready(cx) && c < cx.ncols && LinesAre(cx, dst, c, -1)
    requires !cx.cols[c].underline || FirstFoot(cx) >= cx.lines
    ensures LinesAre(cx, dst, c + 1, -1)
  {
    hide LineIs;
    var u := c + 1;
    forall n | 0 <= n < cx.lines ensures LineIs(cx, dst, n, u, -1) {
      NothingToUnderline(cx, dst, n, c);
    }
  }

  /** The pass-skip tests lose nothing. */
  lemma {:induction false} NoUnderlines(cx: Context, dst: seq<Word>, c: nat)
    requires Ready(cx) && c <= cx.ncols
    requires !AnyUnderlined(cx.cols, cx.ncols) || FirstFoot(cx) >= cx.lines
    requires LinesAre(cx, dst, 0, -1)
    ensures LinesAre(cx, dst, c, -1)
  {
    hide LineIs;
    if c > 0 {
      NoUnderlines(cx, dst, c - 1);
      NothingInColumn(cx, dst, c - 1);
    }
  }

  // ---------------------------------------------------------------- cursor

  /** The column the cursor inverts on line n, or -1. */
  function CursorColumn(cx: Context, cur: Cursor, row: int, n: nat): int {
    if CursorOn(cur, row, cur.x) && 0 <= cur.x < cx.ncols && CursorLine(cur, cx.gl0 + n, cx.fh) then cur.x else -1
  }

  lemma InvertStep(cx: Context, before: seq<Word>, after: seq<Word>, n: nat, x: nat)
    requires Ready(cx) && n < cx.lines && x < cx.ncols && LineIs(cx, before, n, cx.ncols, -1)
    requires SpanRewritten(before, after, n * LINE_WORDS, SpanFrom(cx, n, x), SpanTo(cx, n, x), Pixels.Invert)
    ensures LineIs(cx, after, n, cx.ncols, x)
  {
    hide LinedWord, Pixels.Invert, ColumnsReady;
    forall i | 0 <= i < LINE_WORDS ensures after[n * LINE_WORDS + i] == LineWord(cx, n, cx.ncols, x, i) {
      SpanIsCell(cx, n, x, i);
      assert before[n * LINE_WORDS + i] == LineWord(cx, n, cx.ncols, -1, i);
    }
  }

  /** render_cursor_pass. */
  method CursorPass(dst: array<Word>, cx: Context, cur: Cursor, row: int)
    requires Ready(cx) && dst.Length == cx.lines * LINE_WORDS
    requires LinesAre(cx, dst[..], cx.ncols, -1)
    modifies dst
    ensures forall n :: 0 <= n < cx.lines ==> LineIs(cx, dst[..], n, cx.ncols, CursorColumn(cx, cur, row, n))
  {
    hide LineIs, SpanFrom, SpanTo, ColumnsReady;
    if cur.mode == NoCursor || !cur.visible || cur.y != row || cur.x < 0 || cur.x >= cx.ncols {
      return;
    }
    var n := if cur.mode == Underscore then FirstFoot(cx) else 0;
    while n < cx.lines
      invariant n >= if cur.mode == Underscore then FirstFoot(cx) else 0
      invariant forall k :: 0 <= k < n && k < cx.lines ==>
                LineIs(cx, dst[..], k, cx.ncols, CursorColumn(cx, cur, row, k))
      invariant forall k :: n <= k < cx.lines ==> LineIs(cx, dst[..], k, cx.ncols, -1)
    {
      InvertCursorLine(dst, cx, cur, row, n);
      n := n + 1;
    }
  }

  method InvertCursorLine(dst: array<Word>, cx: Context, cur: Cursor, row: int, n: nat)
    requires Ready(cx) && dst.Length == cx.lines * LINE_WORDS && n < cx.lines
    requires 0 <= cur.x < cx.ncols && CursorColumn(cx, cur, row, n) == cur.x
    requires forall k :: 0 <= k < n ==> LineIs(cx, dst[..], k, cx.ncols, CursorColumn(cx, cur, row, k))
    requires forall k :: n <= k < cx.lines ==> LineIs(cx, dst[..], k, cx.ncols, -1)
    modifies dst
    ensures forall k :: 0 <= k <= n ==> LineIs(cx, dst[..], k, cx.ncols, CursorColumn(cx, cur, row, k))
    ensures forall k :: n < k < cx.lines ==> LineIs(cx, dst[..], k, cx.ncols, -1)
  {
    hide LineIs, SpanFrom, SpanTo, ColumnsReady, CursorColumn;
    ghost var before := dst[..];
    SpanOnLine(cx, n, cur.x);
    InvertSpan(dst, n * LINE_WORDS, SpanFrom(cx, n, cur.x), SpanTo(cx, n, cur.x));
    InvertStep(cx, before, dst[..], n, cur.x);
    hide Ready;
    forall k | 0 <= k < n ensures LineIs(cx, dst[..], k, cx.ncols, CursorColumn(cx, cur, row, k)) {
      LineKept(cx, before, dst[..], k, cx.ncols, CursorColumn(cx, cur, row, k));
    }
    forall k | n < k < cx.lines ensures LineIs(cx, dst[..], k, cx.ncols, -1) {
      LineKept(cx, before, dst[..], k, cx.ncols, -1);
    }
  }

  // ------------------------------------------------------------------ clip

  /** Line n after clipping. */
  ghost predicate LineClipped(before: seq<Word>, after: seq<Word>, y0: int, n: nat, clip: Clip) {
    && |after| == |before| && (n + 1) * LINE_WORDS <= |after|
    && forall j :: n * LINE_WORDS <= j < (n + 1) * LINE_WORDS ==> after[j] == Clipped(clip, y0 + n, before[j])
  }

  /** render_fx_clip_apply. */
  method ClipApply(dst: array<Word>, y0: int, lines: nat, clip: Clip)
    requires dst.Length == lines * LINE_WORDS && clip.active
    modifies dst
    ensures forall n :: 0 <= n < lines ==> LineClipped(old(dst[..]), dst[..], y0, n, clip)
  {
    hide Clipped, LineClipped;
    ghost var before := dst[..];
    var n := 0;
    while n < lines
      invariant 0 <= n <= lines
      invariant forall k :: 0 <= k < n ==> LineClipped(before, dst[..], y0, k, clip)
      invariant forall j :: n * LINE_WORDS <= j < dst.Length ==> dst[j] == before[j]
    {
      ghost var mid := dst[..];
      ClipLine(dst, y0, n, clip);
      LineClippedNow(before, mid, dst[..], y0, n, clip);
      forall k | 0 <= k < n ensures LineClipped(before, dst[..], y0, k, clip) {
        LineClippedKept(before, mid, dst[..], y0, k, clip);
      }
      n := n + 1;
    }
  }

  lemma LineClippedNow(before: seq<Word>, mid: seq<Word>, after: seq<Word>, y0: int, n: nat, clip: Clip)
    requires LineClipped(mid, after, y0, n, clip) && |mid| == |before|
    requires forall j :: n * LINE_WORDS <= j < |mid| ==> mid[j] == before[j]
    ensures LineClipped(before, after, y0, n, clip)
  {
    hide Clipped;
  }

  lemma LineClippedKept(before: seq<Word>, mid: seq<Word>, after: seq<Word>, y0: int, n: nat, clip: Clip)
    requires LineClipped(before, mid, y0, n, clip) && |mid| == |after|
    requires forall j :: n * LINE_WORDS <= j < (n + 1) * LINE_WORDS ==> mid[j] == after[j]
    ensures LineClipped(before, after, y0, n, clip)
  {
    hide Clipped;
  }

  method ClipLine(dst: array<Word>, y0: int, n: nat, clip: Clip)
    requires (n + 1) * LINE_WORDS <= dst.Length && clip.active
    modifies dst
    ensures LineClipped(old(dst[..]), dst[..], y0, n, clip)
    ensures forall j :: 0 <= j < dst.Length && !(n * LINE_WORDS <= j < (n + 1) * LINE_WORDS) ==> dst[j] == old(dst[j])
  {
    hide Pixels.Pair;
    var y := y0 + n;
    if InEdge(clip, y) {
      FillSpan(dst, n * LINE_WORDS, 0, LINE_WORDS, Pixels.Pair(clip.ecol, clip.ecol));
    } else if y < clip.wv0 || y >= clip.wv1 {
      FillSpan(dst, n * LINE_WORDS, 0, LINE_WORDS, 0);
    }
  }

  ghost predicate LineHidden(dst: seq<Word>, y0: int, n: nat, clip: Clip) {
    && (n + 1) * LINE_WORDS <= |dst|
    && forall j :: n * LINE_WORDS <= j < (n + 1) * LINE_WORDS ==> dst[j] == HiddenWord(clip, y0 + n)
  }

  lemma LineHiddenKept(before: seq<Word>, after: seq<Word>, y0: int, n: nat, clip: Clip)
    requires LineHidden(before, y0, n, clip) && |before| == |after|
    requires forall j :: n * LINE_WORDS <= j < (n + 1) * LINE_WORDS ==> before[j] == after[j]
    ensures LineHidden(after, y0, n, clip)
  {
  }

  /** render_fx_fill_hidden: black, then the edge lines. */
  method FillHidden(dst: array<Word>, y0: int, lines: nat, clip: Clip)
    requires dst.Length == lines * LINE_WORDS
    modifies dst
    ensures forall n :: 0 <= n < lines ==> LineHidden(dst[..], y0, n, clip)
  {
    hide Pixels.Pair;
    FillSpan(dst, 0, 0, dst.Length, 0);
    var n := 0;
    while n < lines
      invariant 0 <= n <= lines
      invariant forall k :: 0 <= k < n ==> LineHidden(dst[..], y0, k, clip)
      invariant forall j :: n * LINE_WORDS <= j < dst.Length ==> dst[j] == 0
    {
      ghost var mid := dst[..];
      if InEdge(clip, y0 + n) {
        FillSpan(dst, n * LINE_WORDS, 0, LINE_WORDS, Pixels.Pair(clip.ecol, clip.ecol));
      }
      forall k | 0 <= k < n ensures LineHidden(dst[..], y0, k, clip) {
        LineHiddenKept(mid, dst[..], y0, k, clip);
      }
      n := n + 1;
    }
  }
}
