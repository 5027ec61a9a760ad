/** One scanline of the band scan (components/display/render_scan.inc, mirrored by
    tools/scancheck.py): the text row is written at a per-line word offset, cells hanging
    over an edge are clipped, and what the text does not cover is blacked out. The
    reference renders the line in place and then shifts it. */
module LineScan {
  import opened Arith

  type Word = bv32

  const BLACK: Word := 0

  /** The words of cell c: word w shows its pixels 2w and 2w+1. */
  type CellWords = (int, int) -> Word

  // ------------------------------------------------------------- reference

  /** The line rendered straight: cells of cw words side by side, black to the right. */
  function Straight(cells: CellWords, ncols: nat, cw: nat, i: int): Word
    requires cw > 0
  {
    if 0 <= i < ncols * cw then cells(i / cw, i % cw) else BLACK
  }

  /** The straight line shifted right by koff words, black filled. */
  function Shifted(cells: CellWords, ncols: nat, cw: nat, nw: nat, koff: int, i: int): Word
    requires cw > 0
  {
    if 0 <= i - koff < nw then Straight(cells, ncols, cw, i - koff) else BLACK
  }

  // ------------------------------------------------------------ arithmetic

  /** Word w of cell c stands at c*cw + w of the straight line. */
  lemma StraightAt(cells: CellWords, ncols: nat, cw: nat, c: nat, w: nat)
    requires cw > 0 && c < ncols && w < cw
    ensures 0 <= c * cw + w < ncols * cw
    ensures Straight(cells, ncols, cw, c * cw + w) == cells(c, w)
  {
    DivUnique(c * cw + w, cw, c, w);
    MulAtLeast(ncols - c, cw);
    assert ncols * cw == c * cw + (ncols - c) * cw;
  }

  /** The same after the shift: word w of cell c lands at koff + c*cw + w. */
  lemma ShiftedAt(cells: CellWords, ncols: nat, cw: nat, nw: nat, koff: int, c: nat, w: nat)
    requires cw > 0 && c < ncols && w < cw && ncols * cw <= nw
    ensures Shifted(cells, ncols, cw, nw, koff, koff + c * cw + w) == cells(c, w)
  {
    StraightAt(cells, ncols, cw, c, w);
  }

  // ------------------------------------------------------------------ scan

  /** Words [lo, hi) of the line at o show the shifted line, and were written once;
      the other words of the line were not written, nor was anything outside it. */
  ghost predicate Done(before: seq<Word>, dst: seq<Word>, o: nat, nw: nat, writes: seq<nat>,
                       cells: CellWords, ncols: nat, cw: nat, koff: int, lo: int, hi: int)
    requires cw > 0
  {
    && |dst| == |before| && o + nw <= |dst| && |writes| == nw && 0 <= lo <= hi <= nw
    && (forall i :: lo <= i < hi ==> dst[o + i] == Shifted(cells, ncols, cw, nw, koff, i))
    && (forall j :: 0 <= j < |dst| && !(o + lo <= j < o + hi) ==> dst[j] == before[j])
    && (forall i :: 0 <= i < nw ==> writes[i] == if lo <= i < hi then 1 else 0)
  }

  /** Count one write to each word of [a, b). */
  function Tally(writes: seq<nat>, a: int, b: int): (t: seq<nat>)
    ensures |t| == |writes|
  {
    seq(|writes|, i requires 0 <= i < |writes| => if a <= i < b then writes[i] + 1 else writes[i])
  }

  /** The one way a word reaches the line: word i is stored, and counted. */
  method Store(dst: array<Word>, o: nat, i: nat, v: Word, ghost writes: seq<nat>) returns (ghost more: seq<nat>)
    requires o + i < dst.Length && i < |writes|
    modifies dst
    ensures dst[..] == old(dst[..])[o + i := v]
    ensures more == writes[i := writes[i] + 1]
  {
    dst[o + i] := v;
    more := writes[i := writes[i] + 1];
  }

  lemma TallyOne(writes: seq<nat>, a: nat, b: nat)
    requires a <= b < |writes|
    ensures Tally(writes, a, b)[b := Tally(writes, a, b)[b] + 1] == Tally(writes, a, b + 1)
  {
  }

  lemma TallyNone(writes: seq<nat>, a: int, b: int)
    requires a >= b
    ensures Tally(writes, a, b) == writes
  {
  }

  /** Words w0 to w1 of cell c, which stands at `at`, each stored once. */
  method PutWords(dst: array<Word>, o: nat, at: int, cells: CellWords, c: int, w0: int, w1: int, ghost writes: seq<nat>)
    returns (ghost more: seq<nat>)
    requires w0 <= w1 && 0 <= at + w0 && at + w1 <= |writes| && o + |writes| <= dst.Length
    modifies dst
    ensures forall j :: 0 <= j < dst.Length ==>
              dst[j] == if o + at + w0 <= j < o + at + w1 then cells(c, j - o - at) else old(dst[j])
    ensures more == Tally(writes, at + w0, at + w1)
  {
    var w := w0;
    TallyNone(writes, at + w0, at + w0);
    more := writes;
    while w < w1
      invariant w0 <= w <= w1
      invariant forall j :: 0 <= j < dst.Length ==>
                  dst[j] == if o + at + w0 <= j < o + at + w then cells(c, j - o - at) else old(dst[j])
      invariant more == Tally(writes, at + w0, at + w)
    {
      TallyOne(writes, at + w0, at + w);
      more := Store(dst, o, at + w, cells(c, w), more);
      assert forall j :: 0 <= j < dst.Length ==> dst[j] == dst[..][j];
      w := w + 1;
    }
  }

  method PutBlack(dst: array<Word>, o: nat, a: int, b: int, ghost writes: seq<nat>) returns (ghost more: seq<nat>)
    requires 0 <= a && b <= |writes| && o + |writes| <= dst.Length
    modifies dst
    ensures forall j :: 0 <= j < dst.Length ==> dst[j] == if o + a <= j < o + b then BLACK else old(dst[j])
    ensures more == Tally(writes, a, b)
  {
    var i := a;
    more := writes;
    TallyNone(writes, a, if a < b then a else b);
    while i < b
      invariant a <= i && (a <= b ==> i <= b)
      invariant forall j :: 0 <= j < dst.Length ==> dst[j] == if o + a <= j < o + i && j < o + b
                then BLACK else old(dst[j])
      invariant more == Tally(writes, a, if i < b then i else b)
    {
      TallyOne(writes, a, i);
      more := Store(dst, o, i, BLACK, more);
      assert forall j :: 0 <= j < dst.Length ==> dst[j] == dst[..][j];
      i := i + 1;
    }
  }

  /** What is done grows by [p, lo) on the left or [hi, q) on the right. */
  lemma DoneGrows(before: seq<Word>, mid: seq<Word>, dst: seq<Word>, o: nat, nw: nat, writes: seq<nat>,
                  cells: CellWords, ncols: nat, cw: nat, koff: int, lo: int, hi: int, p: int, q: int)
    requires cw > 0 && 0 <= p <= lo && hi <= q <= nw && (p == lo || hi == q)
    requires Done(before, mid, o, nw, writes, cells, ncols, cw, koff, lo, hi)
    requires |dst| == |mid|
    requires forall j :: 0 <= j < |dst| && !(o + p <= j < o + lo) && !(o + hi <= j < o + q) ==> dst[j] == mid[j]
    requires forall i :: p <= i < lo ==> dst[o + i] == Shifted(cells, ncols, cw, nw, koff, i)
    requires forall i :: hi <= i < q ==> dst[o + i] == Shifted(cells, ncols, cw, nw, koff, i)
    ensures Done(before, dst, o, nw, if p == lo then Tally(writes, hi, q) else Tally(writes, p, lo),
                 cells, ncols, cw, koff, p, q)
  {
  }

  /** Words [w0, w1) of cell c, put where the shift wants them. */
  method PutCell(dst: array<Word>, o: nat, nw: nat, cells: CellWords, ncols: nat, cw: nat, koff: int,
                 c: nat, w0: nat, w1: nat, ghost writes: seq<nat>)
    returns (ghost more: seq<nat>)
    requires cw > 0 && ncols * cw <= nw && c < ncols && w0 <= w1 <= cw && |writes| == nw
    requires 0 <= koff + c * cw + w0 && koff + c * cw + w1 <= nw && o + nw <= dst.Length
    modifies dst
    ensures forall j :: 0 <= j < dst.Length && !(o + koff + c * cw + w0 <= j < o + koff + c * cw + w1) ==>
              dst[j] == old(dst[j])
    ensures forall i :: koff + c * cw + w0 <= i < koff + c * cw + w1 ==>
              dst[o + i] == Shifted(cells, ncols, cw, nw, koff, i)
    ensures more == Tally(writes, koff + c * cw + w0, koff + c * cw + w1)
  {
    var at := koff + c * cw;
    more := PutWords(dst, o, at, cells, c, w0, w1, writes);
    forall i | at + w0 <= i < at + w1 ensures dst[o + i] == Shifted(cells, ncols, cw, nw, koff, i) {
      ShiftedAt(cells, ncols, cw, nw, koff, c, i - at);
    }
  }

  /** Cells c0 to c1, all fully on the line: in pairs, then a trailing odd one. */
  method PutCells(dst: array<Word>, o: nat, nw: nat, cells: CellWords, ncols: nat, cw: nat, koff: int, c0: nat, c1: nat)
    returns (ghost writes: seq<nat>)
    requires cw > 0 && ncols * cw <= nw && c0 <= c1 <= ncols && o + nw <= dst.Length
    requires 0 <= koff + c0 * cw && koff + c1 * cw <= nw
    modifies dst
    ensures Done(old(dst[..]), dst[..], o, nw, writes, cells, ncols, cw, koff, koff + c0 * cw, koff + c1 * cw)
  {
    ghost var before := dst[..];
    writes := seq(nw, _ => 0);
    var c := c0;
    MulMonotone(c0, c1, cw);
    while c + 1 < c1
      invariant c0 <= c <= c1
      invariant Done(before, dst[..], o, nw, writes, cells, ncols, cw, koff, koff + c0 * cw, koff + c * cw)
    {
      writes := AppendCell(dst, o, nw, cells, ncols, cw, koff, c0, c, c1, before, writes);
      writes := AppendCell(dst, o, nw, cells, ncols, cw, koff, c0, c + 1, c1, before, writes);
      c := c + 2;
    }
    if c < c1 {
      writes := AppendCell(dst, o, nw, cells, ncols, cw, koff, c0, c, c1, before, writes);
    }
  }

  lemma CellInside(cw: nat, koff: int, c0: nat, c: nat, c1: nat, nw: nat)
    requires cw > 0 && c0 <= c < c1 && 0 <= koff + c0 * cw && koff + c1 * cw <= nw
    ensures 0 <= koff + c * cw && koff + c * cw + cw == koff + (c + 1) * cw <= nw
    ensures koff + c0 * cw <= koff + c * cw
  {
    MulMonotone(c0, c, cw);
    MulMonotone(c + 1, c1, cw);
  }

  method AppendCell(dst: array<Word>, o: nat, nw: nat, cells: CellWords, ncols: nat, cw: nat, koff: int,
                    ghost c0: nat, c: nat, ghost c1: nat, ghost before: seq<Word>, ghost writes: seq<nat>)
    returns (ghost more: seq<nat>)
    requires cw > 0 && ncols * cw <= nw && c0 <= c < c1 <= ncols && o + nw <= dst.Length
    requires 0 <= koff + c0 * cw && koff + c1 * cw <= nw
    requires Done(before, dst[..], o, nw, writes, cells, ncols, cw, koff, koff + c0 * cw, koff + c * cw)
    modifies dst
    ensures Done(before, dst[..], o, nw, more, cells, ncols, cw, koff, koff + c0 * cw, koff + (c + 1) * cw)
  {
    CellInside(cw, koff, c0, c, c1, nw);
    ghost var mid := dst[..];
    more := PutCell(dst, o, nw, cells, ncols, cw, koff, c, 0, cw, writes);
    DoneGrows(before, mid, dst[..], o, nw, writes, cells, ncols, cw, koff,
              koff + c0 * cw, koff + c * cw, koff + c0 * cw, koff + (c + 1) * cw);
  }

  /** The range of cells fully on the line: c0 from the left edge, c1 from the right. */
  function FirstWhole(ncols: nat, cw: nat, koff: int): (c0: nat)
    requires cw > 0
  {
    if koff < 0 then
      var c := (-koff + cw - 1) / cw;
      if c > ncols then ncols else c
    else 0
  }

  function LastWhole(ncols: nat, cw: nat, nw: nat, koff: int): (c1: nat)
    requires cw > 0 && koff <= nw
  {
    if koff > 0 then
      var c := (nw - koff) / cw;
      if c > ncols then ncols else c
    else ncols
  }

  /** Whole cells fit; a cell just outside hangs over its edge by less than a cell. */
  lemma WholeCells(ncols: nat, cw: nat, nw: nat, koff: int)
    requires cw > 0 && ncols * cw <= nw && -(ncols * cw) <= koff <= nw
    ensures var c0, c1 := FirstWhole(ncols, cw, koff), LastWhole(ncols, cw, nw, koff);
            && c0 <= c1 <= ncols && 0 <= koff + c0 * cw && koff + c1 * cw <= nw
            && (c1 < ncols ==> koff > 0 && nw < koff + c1 * cw + cw)
            && (koff < 0 ==> c0 > 0 && koff + (c0 - 1) * cw < 0 && koff + c0 * cw == koff + (c0 - 1) * cw + cw)
            && (koff >= 0 ==> c0 == 0)
  {
    if koff < 0 {
      WholeFromLeft(ncols, cw, koff);
    } else if koff > 0 {
      WholeFromRight(ncols, cw, nw, koff);
    }
  }

  lemma WholeFromLeft(ncols: nat, cw: nat, koff: int)
    requires cw > 0 && -(ncols * cw) <= koff < 0
    ensures var c0 := FirstWhole(ncols, cw, koff);
            && 0 < c0 <= ncols && 0 <= koff + c0 * cw
            && koff + (c0 - 1) * cw < 0 && koff + c0 * cw == koff + (c0 - 1) * cw + cw
  {
    var x := -koff + cw - 1;
    var c := x / cw;
    DivBounds(x, cw, 1, ncols);
    assert x == c * cw + x % cw;
    assert (c - 1) * cw == c * cw - cw;
  }

  lemma WholeFromRight(ncols: nat, cw: nat, nw: nat, koff: int)
    requires cw > 0 && 0 < koff <= nw
    ensures var c1 := LastWhole(ncols, cw, nw, koff);
            c1 <= ncols && koff + c1 * cw <= nw && (c1 < ncols ==> nw < koff + c1 * cw + cw)
  {
    var x := nw - koff;
    assert x == (x / cw) * cw + x % cw;
    if x / cw > ncols {
      MulMonotone(ncols, x / cw, cw);
    }
  }

  /** The line equals the shifted line everywhere, each of its words was written exactly
      once, and nothing outside it was written. */
  ghost predicate Scanned(before: seq<Word>, dst: seq<Word>, o: nat, nw: nat, writes: seq<nat>,
                          cells: CellWords, ncols: nat, cw: nat, koff: int)
    requires cw > 0
  {
    && |dst| == |before| && o + nw <= |dst| && |writes| == nw
    && (forall i :: 0 <= i < nw ==> dst[o + i] == Shifted(cells, ncols, cw, nw, koff, i))
    && (forall j :: 0 <= j < |dst| && !(o <= j < o + nw) ==> dst[j] == before[j])
    && (forall i :: 0 <= i < nw ==> writes[i] == 1)
  }

  /** A line of an undisplaced band: the whole cells, then the right margin. */
  method ScanPlain(dst: array<Word>, o: nat, nw: nat, cells: CellWords, ncols: nat, cw: nat)
    returns (ghost writes: seq<nat>)
    requires cw > 0 && ncols * cw <= nw && o + nw <= dst.Length
    modifies dst
    ensures Scanned(old(dst[..]), dst[..], o, nw, writes, cells, ncols, cw, 0)
  {
    ghost var before := dst[..];
    writes := PutCells(dst, o, nw, cells, ncols, cw, 0, 0, ncols);
    writes := BlackRight(dst, o, nw, cells, ncols, cw, 0, 0, ncols * cw, before, writes);
  }

  /** Black from hi to the end of the line: past the text, everything is black. */
  method BlackRight(dst: array<Word>, o: nat, nw: nat, ghost cells: CellWords, ghost ncols: nat, ghost cw: nat,
                    ghost koff: int, ghost lo: int, hi: int, ghost before: seq<Word>, ghost writes: seq<nat>)
    returns (ghost more: seq<nat>)
    requires cw > 0 && ncols * cw <= nw && o + nw <= dst.Length && hi <= nw
    requires koff + ncols * cw <= hi || hi == nw
    requires Done(before, dst[..], o, nw, writes, cells, ncols, cw, koff, lo, hi)
    modifies dst
    ensures Done(before, dst[..], o, nw, more, cells, ncols, cw, koff, lo, nw)
  {
    ghost var mid := dst[..];
    more := PutBlack(dst, o, hi, nw, writes);
    DoneGrows(before, mid, dst[..], o, nw, writes, cells, ncols, cw, koff, lo, hi, lo, nw);
  }

  /** Black up to lo: left of the text, everything is black. */
  method BlackLeft(dst: array<Word>, o: nat, nw: nat, ghost cells: CellWords, ghost ncols: nat, ghost cw: nat,
                   ghost koff: int, lo: int, ghost hi: int, ghost before: seq<Word>, ghost writes: seq<nat>)
    returns (ghost more: seq<nat>)
    requires cw > 0 && ncols * cw <= nw && o + nw <= dst.Length && 0 <= lo && (koff == lo || lo == 0)
    requires Done(before, dst[..], o, nw, writes, cells, ncols, cw, koff, lo, hi)
    modifies dst
    ensures Done(before, dst[..], o, nw, more, cells, ncols, cw, koff, 0, hi)
  {
    ghost var mid := dst[..];
    more := PutBlack(dst, o, 0, lo, writes);
    DoneGrows(before, mid, dst[..], o, nw, writes, cells, ncols, cw, koff, lo, hi, 0, hi);
    TallyNone(writes, hi, hi);
    TallyNone(writes, lo, lo);
  }

  /** The cell hanging over the right edge: its first words. */
  method ClipRight(dst: array<Word>, o: nat, nw: nat, cells: CellWords, ncols: nat, cw: nat, koff: int,
                   c: nat, base: nat, ghost lo: int, ghost before: seq<Word>, ghost writes: seq<nat>)
    returns (ghost more: seq<nat>)
    requires cw > 0 && ncols * cw <= nw && o + nw <= dst.Length
    requires c < ncols && base == koff + c * cw && base <= nw < base + cw
    requires Done(before, dst[..], o, nw, writes, cells, ncols, cw, koff, lo, base)
    modifies dst
    ensures Done(before, dst[..], o, nw, more, cells, ncols, cw, koff, lo, nw)
  {
    ghost var mid := dst[..];
    more := PutCell(dst, o, nw, cells, ncols, cw, koff, c, 0, nw - base, writes);
    DoneGrows(before, mid, dst[..], o, nw, writes, cells, ncols, cw, koff, lo, base, lo, nw);
  }

  /** The cell hanging over the left edge: its last words. */
  method ClipLeft(dst: array<Word>, o: nat, nw: nat, cells: CellWords, ncols: nat, cw: nat, koff: int,
                  c: nat, base: int, ghost hi: int, ghost before: seq<Word>, ghost writes: seq<nat>)
    returns (ghost more: seq<nat>)
    requires cw > 0 && ncols * cw <= nw && o + nw <= dst.Length
    requires c < ncols && base == koff + c * cw && base < 0 <= base + cw
    requires Done(before, dst[..], o, nw, writes, cells, ncols, cw, koff, base + cw, hi)
    modifies dst
    ensures Done(before, dst[..], o, nw, more, cells, ncols, cw, koff, 0, hi)
  {
    ghost var mid := dst[..];
    more := PutCell(dst, o, nw, cells, ncols, cw, koff, c, -base, cw, writes);
    DoneGrows(before, mid, dst[..], o, nw, writes, cells, ncols, cw, koff, base + cw, hi, 0, hi);
    TallyNone(writes, hi, hi);
    TallyNone(writes, 0, 0);
  }

  /** The one clipped cell at whichever edge the shift pushed text over. */
  method PutClipped(dst: array<Word>, o: nat, nw: nat, cells: CellWords, ncols: nat, cw: nat, koff: int,
                    c0: nat, c1: nat, ghost before: seq<Word>, ghost writes: seq<nat>)
    returns (ghost more: seq<nat>)
    requires cw > 0 && ncols * cw <= nw && -(ncols * cw) <= koff <= nw && o + nw <= dst.Length
    requires c0 == FirstWhole(ncols, cw, koff) && c1 == LastWhole(ncols, cw, nw, koff)
    requires Done(before, dst[..], o, nw, writes, cells, ncols, cw, koff, koff + c0 * cw, koff + c1 * cw)
    modifies dst
    ensures Done(before, dst[..], o, nw, more, cells, ncols, cw, koff,
                 if koff > 0 then koff else 0, if koff + ncols * cw > nw then nw else koff + ncols * cw)
  {
    hide Done, FirstWhole, LastWhole;
    WholeCells(ncols, cw, nw, koff);
    more := writes;
    if koff > 0 && c1 < ncols {
      MulMonotone(c1 + 1, ncols, cw);
      assert (c1 + 1) * cw == c1 * cw + cw;
      more := ClipRight(dst, o, nw, cells, ncols, cw, koff, c1, koff + c1 * cw, koff, before, writes);
    } else if koff < 0 && c0 > 0 {
      more := ClipLeft(dst, o, nw, cells, ncols, cw, koff, c0 - 1, koff + (c0 - 1) * cw, koff + c1 * cw, before,
          writes);
    }
  }

  /** A line of a displaced band. */
  method ScanDisplaced(dst: array<Word>, o: nat, nw: nat, cells: CellWords, ncols: nat, cw: nat, koff: int)
    returns (ghost writes: seq<nat>)
    requires cw > 0 && ncols * cw <= nw && -(ncols * cw) <= koff <= nw && o + nw <= dst.Length
    modifies dst
    ensures Scanned(old(dst[..]), dst[..], o, nw, writes, cells, ncols, cw, koff)
  {
    ghost var before := dst[..];
    var c0, c1 := FirstWhole(ncols, cw, koff), LastWhole(ncols, cw, nw, koff);
    WholeCells(ncols, cw, nw, koff);
    writes := PutCells(dst, o, nw, cells, ncols, cw, koff, c0, c1);
    writes := PutClipped(dst, o, nw, cells, ncols, cw, koff, c0, c1, before, writes);
    var lo := if koff > 0 then koff else 0;
    var hi := if koff + ncols * cw > nw then nw else koff + ncols * cw;
    writes := BlackLeft(dst, o, nw, cells, ncols, cw, koff, lo, hi, before, writes);
    writes := BlackRight(dst, o, nw, cells, ncols, cw, koff, 0, hi, before, writes);
  }
}
