/** Glyph records: the blank rows above and below the ink are cropped away, a one-
    or two-byte header says what is left and where it goes, and a PackBits body
    follows. Generator side: crop and encode_record of tools/gen_terminus.py.
    Renderer side: decode_record of components/font/font_renderer.c. */
module GlyphRecord {
  import opened FontTypes
  import opened PackBits

  /** A cropped cell: `rows` go at row `start`, everything else is blank. */
  datatype Record = Record(start: nat, rows: Cell)

  // ------------------------------------------------------------------ crop

  predicate AllBlank(rows: Cell) {
    forall i :: 0 <= i < |rows| ==> rows[i] == 0
  }

  function FirstInk(rows: Cell): (s: nat)
    requires !AllBlank(rows)
    ensures s < |rows| && rows[s] != 0 && forall i :: 0 <= i < s ==> rows[i] == 0
  {
    if rows[0] != 0 then 0
    else
      assert !AllBlank(rows[1..]) by {
        var k :| 0 <= k < |rows| && rows[k] != 0;
        assert rows[1..][k - 1] != 0;
      }
      1 + FirstInk(rows[1..])
  }

  function LastInk(rows: Cell): (e: nat)
    requires !AllBlank(rows)
    ensures e < |rows| && rows[e] != 0 && forall i :: e < i < |rows| ==> rows[i] == 0
    decreases |rows|
  {
    var n := |rows| - 1;
    if rows[n] != 0 then n
    else
      assert !AllBlank(rows[..n]) by {
        var k :| 0 <= k < |rows| && rows[k] != 0;
        assert rows[..n][k] != 0;
      }
      LastInk(rows[..n])
  }

  /** A blank cell keeps one zero row at height 16, whose 4-bit length field cannot
      say 0, and no rows at all at the other heights. Putting the cropped rows back
      restores the cell, and the crop is tight. */
  function Crop(rows: Cell, height: nat): (rec: Record)
    requires |rows| == height > 0
    ensures rec.start + |rec.rows| <= height
    ensures Place(rec.rows, rec.start, height) == rows
    ensures !AllBlank(rows) ==> rec.rows != [] && rec.rows[0] != 0 && rec.rows[|rec.rows| - 1] != 0
    ensures AllBlank(rows) ==> rec.start == 0 && rec.rows == if height == 16 then [0] else []
  {
    if AllBlank(rows) then
      Record(0, if height == 16 then [0] else [])
    else
      var s, e := FirstInk(rows), LastInk(rows);
      Record(s, rows[s..e + 1])
  }

  /** Cropping is injective: two cells share a record only when they are equal. */
  lemma CropInjective(a: Cell, b: Cell, height: nat)
    requires |a| == |b| == height > 0 && Crop(a, height) == Crop(b, height)
    ensures a == b
  {
    assert a == Place(Crop(a, height).rows, Crop(a, height).start, height);
  }

  // ---------------------------------------------------------------- format

  /** What a record decodes to, and the position just past it. */
  datatype ReadRecord = BadRecord | OneRecord(rec: Record, end: nat)

  /** The bytes before the body. A record without rows is all header. */
  function Header(height: nat, rec: Record): (bytes: seq<Byte>)
    requires HeaderFits(height, rec)
  {
    if rec.rows == [] then [0, 0]
    else if height == 16 then [16 * rec.start + (|rec.rows| - 1)]
    else [rec.start, |rec.rows|]
  }

  /** The records the header can describe at this height. */
  predicate HeaderFits(height: nat, rec: Record) {
    && rec.start + |rec.rows| <= height < 256
    && (height == 16 ==> rec.rows != [])
    && (rec.rows == [] ==> rec.start == 0)
  }

  /** The reading side: header, then exactly as many rows as it announces, all of
      which must land inside the cell. */
  function Read(code: SymbolCode, height: nat, pool: seq<Byte>, pos: nat): (r: ReadRecord)
    requires code.Valid()
    ensures r.OneRecord? ==> r.rec.start + |r.rec.rows| <= height || r.rec.rows == []
  {
    if height == 16 then
      if pos >= |pool| then BadRecord
      else Body(code, height, pool, pos + 1, pool[pos] / 16, pool[pos] % 16 + 1)
    else if pos + 1 >= |pool| then BadRecord
    else if pool[pos + 1] == 0 then OneRecord(Record(pool[pos], []), pos + 2)
    else Body(code, height, pool, pos + 2, pool[pos], pool[pos + 1])
  }

  function Body(code: SymbolCode, height: nat, pool: seq<Byte>, pos: nat, start: nat, len: nat): ReadRecord
    requires code.Valid()
  {
    match Run(code, pool, pos, len)
    case BadRows => BadRecord
    case ManyRows(rows, end) =>
      if start + len <= height then OneRecord(Record(start, rows), end) else BadRecord
  }

  /** The cell a record paints over a blank one. */
  function Painted(rec: Record, height: nat): (cell: Cell)
    requires rec.start + |rec.rows| <= height || rec.rows == []
    ensures |cell| == height
  {
    if rec.rows == [] then Blank(height) else Place(rec.rows, rec.start, height)
  }

  // --------------------------------------------------------------- encoder

  /** Wherever these bytes stand in a pool, reading there yields `rec` and consumes
      exactly them. */
  ghost predicate Stores(code: SymbolCode, height: nat, bytes: seq<Byte>, rec: Record)
    requires code.Valid()
  {
    forall pool, pos: nat {:trigger Read(code, height, pool, pos)} ::
      Holds(pool, pos, bytes) ==> Read(code, height, pool, pos) == OneRecord(rec, pos + |bytes|)
  }

  /** encode_record. */
  method EncodeRecord(code: SymbolCode, height: nat, rec: Record) returns (bytes: seq<Byte>)
    requires code.Valid() && HeaderFits(height, rec) && CellFits(code.rb, rec.rows)
    ensures Stores(code, height, bytes, rec)
    ensures |Header(height, rec)| <= |bytes|
    ensures if rec.rows == [] then |bytes| == 2
            else ShortestFor(code, rec.rows, |bytes| - |Header(height, rec)|)
  {
    if |rec.rows| == 0 {
      bytes := [0, 0];
      forall pool, pos: nat | Holds(pool, pos, bytes)
        ensures Read(code, height, pool, pos) == OneRecord(rec, pos + |bytes|)
      {
        assert bytes[0] == pool[pos] && bytes[1] == pool[pos + 1];
      }
      return;
    }
    var body := Encode(code, rec.rows);
    bytes := Header(height, rec) + body;
    forall pool, pos: nat | Holds(pool, pos, bytes)
      ensures Read(code, height, pool, pos) == OneRecord(rec, pos + |bytes|)
    {
      HeaderThenBody(code, height, rec, pool, pos, body);
    }
  }

  lemma HeaderThenBody(code: SymbolCode, height: nat, rec: Record, pool: seq<Byte>, pos: nat, body: seq<Byte>)
    requires code.Valid() && HeaderFits(height, rec) && rec.rows != []
    requires Holds(pool, pos, Header(height, rec) + body)
    requires forall p: nat :: Holds(pool, p, body) ==>
               Run(code, pool, p, |rec.rows|) == ManyRows(rec.rows, p + |body|)
    ensures Read(code, height, pool, pos) == OneRecord(rec, pos + |Header(height, rec)| + |body|)
  {
    var header := Header(height, rec);
    HoldsParts(pool, pos, header, body);
    assert header[0] == pool[pos];
    if height != 16 {
      assert header[1] == pool[pos + 1];
    }
  }

  /** The record of a cell, as the pool builder makes it: wherever it lands in a pool,
      the decoder restores the whole cell and stops exactly past these bytes. */
  method EncodeCell(code: SymbolCode, height: nat, cell: Cell) returns (bytes: seq<Byte>)
    requires code.Valid() && |cell| == height && 0 < height < 256 && CellFits(code.rb, cell)
    ensures forall pool, pos: nat {:trigger Read(code, height, pool, pos)} :: Holds(pool, pos, bytes) ==>
              var r := Read(code, height, pool, pos);
              r.OneRecord? && r.end == pos + |bytes| && Painted(r.rec, height) == cell
  {
    var rec := Crop(cell, height);
    bytes := EncodeRecord(code, height, rec);
    if rec.rows == [] {
      assert Place([], 0, height) == Blank(height);
    }
  }

  // --------------------------------------------------------------- decoder

  /** Rows `rows` written over `cell` from row `start` on. */
  function Overlay(cell: Cell, rows: Cell, start: nat): (r: Cell)
    requires start + |rows| <= |cell|
  {
    seq(|cell|, i requires 0 <= i < |cell| => if start <= i < start + |rows| then rows[i - start] else cell[i])
  }

  lemma OverlayOverlay(cell: Cell, rows: Cell, start: nat, k: nat, more: Cell)
    requires start + |rows| <= |cell| && k + |more| <= |rows| && rows[k..k + |more|] == more
    ensures Overlay(Overlay(cell, rows[..k], start), more, start + k) == Overlay(cell, rows[..k + |more|], start)
  {
    var a, b := Overlay(Overlay(cell, rows[..k], start), more, start + k), Overlay(cell, rows[..k + |more|], start);
    forall i | 0 <= i < |cell| ensures a[i] == b[i] {
      if start + k <= i < start + k + |more| {
        assert more[i - start - k] == rows[k..k + |more|][i - start - k];
      }
    }
  }

  /** decode_record of the renderer: rows are written one at a time as they are
      read. Only rows [start, start+len) of the glyph buffer change. */
  method DecodeInto(code: SymbolCode, pool: seq<Byte>, offset: nat, out: array<Row>)
    requires code.Valid() && Read(code, out.Length, pool, offset).OneRecord?
    modifies out
    ensures var rec := Read(code, out.Length, pool, offset).rec;
            out[..] == if rec.rows == [] then old(out[..]) else Overlay(old(out[..]), rec.rows, rec.start)
  {
    var p: nat := offset;
    var start, len: nat;
    if out.Length == 16 {
      start, len := pool[p] / 16, pool[p] % 16 + 1;
      p := p + 1;
    } else {
      start, len := pool[p], pool[p + 1];
      p := p + 2;
      if len == 0 {
        return;
      }
    }
    WriteRun(code, pool, p, len, out, start);
  }

  /** The body: control bytes until `len` rows are written. */
  method WriteRun(code: SymbolCode, pool: seq<Byte>, pos: nat, len: nat, out: array<Row>, start: nat)
    requires code.Valid() && Run(code, pool, pos, len).ManyRows? && start + len <= out.Length
    modifies out
    ensures out[..] == Overlay(old(out[..]), Run(code, pool, pos, len).rows, start)
  {
    ghost var rows := Run(code, pool, pos, len).rows;
    ghost var before := out[..];
    var p: nat, done: nat := pos, 0;
    assert rows[0..] == rows && Overlay(before, rows[..0], start) == before;
    while done < len
      invariant done <= len && YieldsRows(code, pool, p, rows[done..])
      invariant out[..] == Overlay(before, rows[..done], start)
    {
      done, p := WriteNext(code, pool, p, out, start, done, before, rows);
    }
    assert rows[..len] == rows;
  }

  /** One turn of the loop: the next control byte's rows land below those done. */
  method WriteNext(code: SymbolCode, pool: seq<Byte>, p: nat, out: array<Row>, start: nat, done: nat,
                   ghost before: Cell, ghost rows: Cell)
    returns (next: nat, q: nat)
    requires code.Valid() && done < |rows| && start + |rows| <= out.Length == |before|
    requires YieldsRows(code, pool, p, rows[done..])
    requires out[..] == Overlay(before, rows[..done], start)
    modifies out
    ensures done < next <= |rows| && YieldsRows(code, pool, q, rows[next..])
    ensures out[..] == Overlay(before, rows[..next], start)
  {
    RunAdvances(code, pool, p, rows, done);
    var count;
    count, q := WriteSegment(code, pool, p, out, start + done);
    OverlayOverlay(before, rows, start, done, rows[done..done + count]);
    next := done + count;
  }

  /** One control byte: copy its literals, or repeat its row. */
  method WriteSegment(code: SymbolCode, pool: seq<Byte>, pos: nat, out: array<Row>, row: nat)
    returns (count: nat, end: nat)
    requires code.Valid() && ReadSegment(code, pool, pos).ManyRows?
    requires row + |ReadSegment(code, pool, pos).rows| <= out.Length
    modifies out
    ensures count == |ReadSegment(code, pool, pos).rows| && end == ReadSegment(code, pool, pos).end
    ensures out[..] == Overlay(old(out[..]), ReadSegment(code, pool, pos).rows, row)
  {
    var c := pool[pos];
    if c < 0x80 {
      count := c + 1;
      end := WriteLiterals(code, pool, pos + 1, out, row, count);
    } else {
      count := c % 0x80 + 2;
      var sym := code.Read(pool, pos + 1);
      WriteRepeat(out, row, sym.row, count);
      end := sym.end;
    }
  }

  method WriteLiterals(code: SymbolCode, pool: seq<Byte>, pos: nat, out: array<Row>, row: nat, count: nat)
    returns (p: nat)
    requires code.Valid() && ReadLiterals(code, pool, pos, count).ManyRows?
    requires row + count <= out.Length
    modifies out
    ensures p == ReadLiterals(code, pool, pos, count).end
    ensures out[..] == Overlay(old(out[..]), ReadLiterals(code, pool, pos, count).rows, row)
  {
    ghost var ManyRows(seg, stop) := ReadLiterals(code, pool, pos, count);
    ghost var before := out[..];
    p := pos;
    for i := 0 to count
      invariant ReadLiterals(code, pool, p, count - i) == ManyRows(seg[i..], stop)
      invariant out[..] == Overlay(before, seg[..i], row)
    {
      LiteralAdvances(code, pool, p, count - i, seg, i);
      OverlayNext(before, seg, row, i);
      var sym := code.Read(pool, p);
      out[row + i] := sym.row;
      p := sym.end;
    }
    assert seg[..count] == seg;
  }

  method WriteRepeat(out: array<Row>, row: nat, sym: Row, count: nat)
    requires row + count <= out.Length
    modifies out
    ensures out[..] == Overlay(old(out[..]), Repeat(sym, count), row)
  {
    ghost var before := out[..];
    for i := 0 to count
      invariant out[..] == Overlay(before, Repeat(sym, count)[..i], row)
    {
      OverlayNext(before, Repeat(sym, count), row, i);
      out[row + i] := sym;
    }
    assert Repeat(sym, count)[..count] == Repeat(sym, count);
  }

  lemma LiteralAdvances(code: SymbolCode, pool: seq<Byte>, p: nat, n: nat, seg: Cell, i: nat)
    requires code.Valid() && n > 0 && i + n == |seg|
    requires ReadLiterals(code, pool, p, n).ManyRows? && ReadLiterals(code, pool, p, n).rows == seg[i..]
    ensures code.Read(pool, p).OneRow?
    ensures var OneRow(row, q) := code.Read(pool, p);
            && row == seg[i]
            && ReadLiterals(code, pool, q, n - 1).ManyRows?
            && ReadLiterals(code, pool, q, n - 1).rows == seg[i + 1..]
            && ReadLiterals(code, pool, q, n - 1).end == ReadLiterals(code, pool, p, n).end
  {
    var OneRow(row, q) := code.Read(pool, p);
    var rest := ReadLiterals(code, pool, q, n - 1).rows;
    assert seg[i..] == [row] + rest;
    assert seg[i + 1..] == seg[i..][1..] == rest;
    assert seg[i..][0] == row;
  }

  lemma OverlayNext(before: Cell, rows: Cell, start: nat, k: nat)
    requires start + |rows| <= |before| && k < |rows|
    ensures Overlay(before, rows[..k + 1], start) == Overlay(before, rows[..k], start)[start + k := rows[k]]
  {
  }
}
