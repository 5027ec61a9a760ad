/** Decoding one glyph from a font's tables: decode_regular and decode_uncached of
    components/font/font_renderer.c (sprite slots are in GlyphCache). EndToEnd ties
    the renderer to the generator: what comes out of the tables is what went into the
    font. */
module GlyphDecode {
  import opened FontTypes
  import opened PackBits
  import opened FontRanges
  import opened Smear
  import opened FontTables
  import opened Glyphs = GlyphRecord

  /** Offsets in the tables can be decoded. */
  ghost predicate Decodable(t: Tables) {
    && t.code.Valid() && ValidRanges(t.reg) && ValidRanges(t.bold)
    && (forall c: Codepoint :: RegularDecodes(t, c))
    && (forall c: Codepoint :: BoldDecodes(t, c))
  }

  ghost predicate RegularDecodes(t: Tables, c: Codepoint)
    requires t.code.Valid()
  {
    Lookup(t.reg, c).Some? ==> Readable(t.code, t.height, t.regPool, Lookup(t.reg, c).value)
  }

  ghost predicate BoldDecodes(t: Tables, c: Codepoint)
    requires t.code.Valid()
  {
    Lookup(t.bold, c).Some? && Lookup(t.bold, c).value != SMEAR ==>
      Readable(t.code, t.height, t.boldPool, Lookup(t.bold, c).value)
  }

  /** The record decodes inside the cell, to rows of the right width. */
  predicate Readable(code: SymbolCode, height: nat, pool: seq<Byte>, off: nat)
    requires code.Valid()
  {
    var r := Glyphs.Read(code, height, pool, off);
    r.OneRecord? && CellFits(code.rb, r.rec.rows)
  }

  function CellAt(t: Tables, pool: seq<Byte>, off: nat): (cell: Cell)
    requires t.code.Valid() && Readable(t.code, t.height, pool, off)
    ensures |cell| == t.height && CellFits(t.code.rb, cell)
  {
    Painted(Glyphs.Read(t.code, t.height, pool, off).rec, t.height)
  }

  /** What decode_regular draws. */
  function RegularCell(t: Tables, c: Codepoint): (cell: Cell)
    requires Decodable(t)
    ensures |cell| == t.height && CellFits(t.code.rb, cell)
  {
    assert RegularDecodes(t, c) && RegularDecodes(t, QUESTION);
    match Lookup(t.reg, c)
    case Some(off) => CellAt(t, t.regPool, off)
    case None =>
      if c == QUESTION then Blank(t.height)
      else match Lookup(t.reg, QUESTION)
        case Some(off) => CellAt(t, t.regPool, off)
        case None => Blank(t.height)
  }

  /** What decode_uncached draws, sprite slots aside. */
  function GlyphCell(t: Tables, c: Codepoint, bold: bool): (cell: Cell)
    requires Decodable(t)
    ensures |cell| == t.height
  {
    assert BoldDecodes(t, c);
    if !bold then RegularCell(t, c)
    else match Lookup(t.bold, c)
      case None => RegularCell(t, c)
      case Some(off) =>
        if off == SMEAR then SmearCell(t.code.rb, t.smearLeft, RegularCell(t, c))
        else CellAt(t, t.boldPool, off)
  }

  lemma FaithfulIsDecodable(font: Font, t: Tables)
    requires Faithful(font, t)
    ensures Decodable(t)
  {
    forall c: Codepoint ensures RegularDecodes(t, c) {
      assert RegularEntry(font, t, c);
      if Lookup(t.reg, c).Some? {
        ShownFits(font, t, t.regPool, Lookup(t.reg, c).value,
                  if c in font.normal then font.normal[c] else font.normal[QUESTION]);
      }
    }
    forall c: Codepoint ensures BoldDecodes(t, c) {
      assert BoldEntry(font, t, c);
      if Lookup(t.bold, c).Some? && Lookup(t.bold, c).value != SMEAR {
        ShownFits(font, t, t.boldPool, Lookup(t.bold, c).value, font.BoldForm(c));
      }
    }
  }

  lemma ShownFits(font: Font, t: Tables, pool: seq<Byte>, off: nat, cell: Cell)
    requires Faithful(font, t) && font.GoodCell(cell) && Shows(t.code, t.height, pool, off, cell)
    ensures Readable(t.code, t.height, pool, off)
  {
    var rec := Glyphs.Read(t.code, t.height, pool, off).rec;
    forall k | 0 <= k < |rec.rows| ensures FitsRowBytes(t.code.rb, rec.rows[k]) {
      assert cell[rec.start + k] == rec.rows[k];
    }
  }

  /** End to end: whatever was merged, pooled, compressed or left to smearing, a bold
      codepoint of the bold subset decodes to its true bold cell where the font has one,
      any other codepoint of the font to its normal cell, and a codepoint the font lacks
      to its '?'. */
  lemma EndToEnd(font: Font, t: Tables, c: Codepoint, bold: bool)
    requires Faithful(font, t)
    ensures Decodable(t) && 0x3F in font.normal
    ensures GlyphCell(t, c, bold) ==
            if c !in font.normal then font.normal[0x3F]
            else if bold && (0x20 <= c <= 0x7E || 0xA0 <= c <= 0x17F || 0x400 <= c <= 0x45F) && c in font.trueBold
            then font.trueBold[c]
            else font.normal[c]
    ensures GlyphCell(t, c, bold) == font.TrueCell(c, bold)
  {
    FaithfulIsDecodable(font, t);
    assert RegularEntry(font, t, c) && RegularEntry(font, t, QUESTION) && BoldEntry(font, t, c);
    assert RegularCell(t, c) == if c in font.normal then font.normal[c] else font.normal[QUESTION];
  }

  /** A bold codepoint is left to smearing exactly when smearing its normal cell gives its
      bold form; no other covered one is. */
  lemma SmearedExactly(font: Font, t: Tables, c: Codepoint)
    requires Faithful(font, t)
    ensures Lookup(t.bold, c) == Some(0xFFFF) <==>
              && c in font.normal && (0x20 <= c <= 0x7E || 0xA0 <= c <= 0x17F || 0x400 <= c <= 0x45F)
              && (if c in font.trueBold then font.trueBold[c] else font.normal[c])
                 == SmearCell(if font.width <= 8 then 1 else 2, font.width == 8, font.normal[c])
  {
    assert BoldEntry(font, t, c);
  }

  // --------------------------------------------------------------- in place

  /** zero_fill. */
  method ZeroFill(out: array<Row>)
    modifies out
    ensures out[..] == Blank(out.Length)
  {
    for i := 0 to out.Length
      invariant forall k :: 0 <= k < i ==> out[k] == 0
    {
      out[i] := 0;
    }
  }

  /** A record decoded over a blank buffer. */
  method DecodeRecord(t: Tables, pool: seq<Byte>, off: nat, out: array<Row>)
    requires t.code.Valid() && out.Length == t.height && Readable(t.code, t.height, pool, off)
    requires out[..] == Blank(t.height)
    modifies out
    ensures out[..] == CellAt(t, pool, off)
  {
    DecodeInto(t.code, pool, off, out);
    ghost var rec := Glyphs.Read(t.code, t.height, pool, off).rec;
    if rec.rows != [] {
      BlankOverlay(rec, t.height);
    }
  }

  lemma BlankOverlay(rec: Record, height: nat)
    requires rec.start + |rec.rows| <= height
    ensures Overlay(Blank(height), rec.rows, rec.start) == Place(rec.rows, rec.start, height)
  {
  }

  /** decode_regular: a miss falls back to '?', and to blank when even that is missing. */
  method DecodeRegular(t: Tables, c: Codepoint, out: array<Row>)
    requires Decodable(t) && out.Length == t.height
    modifies out
    ensures out[..] == RegularCell(t, c)
  {
    assert RegularDecodes(t, c) && RegularDecodes(t, QUESTION);
    ZeroFill(out);
    var off := LookupOffset(t.reg, c);
    if off.Some? {
      DecodeRecord(t, t.regPool, off.value, out);
      return;
    }
    if c != QUESTION {
      var qoff := LookupOffset(t.reg, QUESTION);
      if qoff.Some? {
        DecodeRecord(t, t.regPool, qoff.value, out);
      }
    }
  }

  /** decode_uncached for the codepoints that are not sprite slots. */
  method DecodeGlyph(t: Tables, c: Codepoint, bold: bool, out: array<Row>)
    requires Decodable(t) && out.Length == t.height
    requires t.code.rb == 1 || t.code.rb == 2
    modifies out
    ensures out[..] == GlyphCell(t, c, bold)
  {
    if bold {
      assert BoldDecodes(t, c);
      var off := LookupOffset(t.bold, c);
      if off.Some? {
        if off.value == SMEAR {
          DecodeRegular(t, c, out);
          SmearGlyph(out, t.code.rb, t.smearLeft);
        } else {
          ZeroFill(out);
          DecodeRecord(t, t.boldPool, off.value, out);
        }
        return;
      }
    }
    DecodeRegular(t, c, out);
  }
}
