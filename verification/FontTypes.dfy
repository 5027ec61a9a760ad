/** Vocabulary shared by the font generator and the renderer: pool bytes, glyph
    rows, glyph cells and codepoints. Rows are 16 bits wide at every size; a
    one-byte-per-row face simply never sets the high byte (FitsRowBytes). */
module FontTypes {
  type Byte = b: int | 0 <= b < 256
  type Row = r: int | 0 <= r < 0x1_0000
  type Cell = seq<Row>
  type Codepoint = c: int | 0 <= c < 0x1_0000

  datatype Option<+T> = None | Some(value: T)

  /** FONT_ROW_BYTES: one byte per row up to 8 pixels, else two. */
  function RowBytes(width: nat): nat {
    if width <= 8 then 1 else 2
  }

  /** Can this row be stored in `rb` bytes? */
  predicate FitsRowBytes(rb: nat, r: Row) {
    rb == 1 ==> r < 256
  }

  predicate CellFits(rb: nat, rows: Cell) {
    forall i :: 0 <= i < |rows| ==> FitsRowBytes(rb, rows[i])
  }

  function Blank(height: nat): Cell {
    seq(height, _ => 0 as Row)
  }

  /** A blank cell with `rows` written from row `start` on. */
  function Place(rows: Cell, start: nat, height: nat): (cell: Cell)
    requires start + |rows| <= height
  {
    seq(height, i requires 0 <= i < height =>
      if start <= i < start + |rows| then rows[i - start] else 0)
  }

  predicate NoDuplicates<T(==)>(s: seq<T>) {
    forall i, j :: 0 <= i < j < |s| ==> s[i] != s[j]
  }
}
