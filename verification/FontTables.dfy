/** Building a font's tables: build_font_data of tools/gen_terminus.py. The result is
    that every table it produces holds the font it was given (Faithful). */
module FontTables {
  import opened FontTypes
  import opened PackBits
  import opened FontRanges
  import opened Smear
  import opened Glyphs = GlyphRecord

  // ------------------------------------------------------------------ font

  /** The two BDF faces of one size. A codepoint absent from `trueBold` has its
      normal glyph as bold form. */
  datatype Font = Font(width: nat, height: nat, normal: map<Codepoint, Cell>, trueBold: map<Codepoint, Cell>) {
    predicate Valid() {
      && 0 < height < 256
      && (forall c :: c in normal ==> GoodCell(normal[c]))
      && (forall c :: c in trueBold ==> GoodCell(trueBold[c]))
    }

    predicate GoodCell(cell: Cell) {
      |cell| == height && CellFits(RowBytes(width), cell)
    }

    function BoldForm(c: Codepoint): Cell
      requires c in normal
    {
      if c in trueBold then trueBold[c] else normal[c]
    }

    function Smeared(c: Codepoint): Cell
      requires c in normal
    {
      SmearCell(RowBytes(width), width == 8, normal[c])
    }

    /** Bold codepoints whose form is not the smeared regular glyph. */
    predicate IsException(c: Codepoint) {
      c in normal && InBoldSubset(c) && BoldForm(c) != Smeared(c)
    }

    /** What the screen should show: the bold form where bold is asked and covered,
        else the regular glyph, else '?'. */
    function TrueCell(c: Codepoint, bold: bool): Cell
      requires QUESTION in normal
    {
      if c !in normal then normal[QUESTION]
      else if bold && InBoldSubset(c) then BoldForm(c)
      else normal[c]
    }
  }

  const QUESTION: Codepoint := 0x3F

  /** ASCII, Latin-1 supplement and Extended-A, basic Cyrillic. */
  function BoldSubset(k: nat): Span
    requires k < 3
  {
    if k == 0 then Span(0x0020, 0x007E) else if k == 1 then Span(0x00A0, 0x017F) else Span(0x0400, 0x045F)
  }

  predicate InBoldSubset(c: int) {
    0x0020 <= c <= 0x007E || 0x00A0 <= c <= 0x017F || 0x0400 <= c <= 0x045F
  }

  /** The sentinel in a bold index: synthesize by smearing. */
  const SMEAR := 0xFFFF

  const MAX_POOL := 65534

  // ---------------------------------------------------------------- tables

  datatype Tables = Tables(code: SymbolCode, height: nat, smearLeft: bool,
                           reg: seq<Range>, regPool: seq<Byte>, bold: seq<Range>, boldPool: seq<Byte>)

  predicate Shows(code: SymbolCode, height: nat, pool: seq<Byte>, off: nat, cell: Cell)
    requires code.Valid()
  {
    && Glyphs.Read(code, height, pool, off).OneRecord?
    && Painted(Glyphs.Read(code, height, pool, off).rec, height) == cell
  }

  /** The tables hold the font: regular codepoints show their glyph, anything else the
      ranges cover shows '?'; bold codepoints hold the sentinel or their own glyph. */
  ghost predicate Faithful(font: Font, t: Tables) {
    && font.Valid() && QUESTION in font.normal
    && t.code.Valid() && t.code.rb == RowBytes(font.width)
    && t.height == font.height && t.smearLeft == (font.width == 8)
    && ValidRanges(t.reg) && ValidRanges(t.bold)
    && (forall c: Codepoint :: RegularEntry(font, t, c))
    && (forall c: Codepoint :: BoldEntry(font, t, c))
  }

  ghost predicate RegularEntry(font: Font, t: Tables, c: Codepoint)
    requires t.code.Valid() && QUESTION in font.normal
  {
    match Lookup(t.reg, c)
    case None => c !in font.normal
    case Some(off) => Shows(t.code, t.height, t.regPool, off,
                            if c in font.normal then font.normal[c] else font.normal[QUESTION])
  }

  ghost predicate BoldEntry(font: Font, t: Tables, c: Codepoint)
    requires t.code.Valid()
  {
    match Lookup(t.bold, c)
    case None => c !in font.normal || !InBoldSubset(c)
    case Some(off) =>
      && c in font.normal && InBoldSubset(c)
      && (off == SMEAR <==> !font.IsException(c))
      && (off != SMEAR ==> Shows(t.code, t.height, t.boldPool, off, font.BoldForm(c)))
  }

  // ------------------------------------------------------------- generator

  datatype Reason = EmptyFont | WrongBoldRanges(n: nat) | PoolTooLarge(bytes: nat) | NoQuestionMark

  datatype BuildResult = Built(tables: Tables) | Rejected(reason: Reason)

  /** The first k spans of the bold subset, clipped. */
  ghost predicate Clipped(coverage: set<Codepoint>, k: nat, out: seq<Span>) {
    && k <= 3 && Apart(out, 0)
    && (forall j :: 0 <= j < |out| ==> k > 0 && out[j].hi <= BoldSubset(k - 1).hi)
    && (forall c: Codepoint :: Covered(out, c) <==> c in coverage && InFirst(k, c))
  }

  predicate InFirst(k: nat, c: int) {
    || (k > 0 && 0x0020 <= c <= 0x007E)
    || (k > 1 && 0x00A0 <= c <= 0x017F)
    || (k > 2 && 0x0400 <= c <= 0x045F)
  }

  lemma ClipNext(coverage: set<Codepoint>, k: nat, out: seq<Span>, covered: seq<Codepoint>, more: seq<Span>)
    requires k < 3 && Clipped(coverage, k, out)
    requires Apart(more, 0) && forall c :: Covered(more, c) <==> c in covered
    requires forall c :: c in covered <==> c in coverage && InSpan(BoldSubset(k), c)
    ensures Clipped(coverage, k + 1, out + more)
  {
    var s := BoldSubset(k);
    SpansWithin(more, covered, s);
    forall i, j | 0 <= i < |out| && 0 <= j < |more| ensures out[i].hi + 1 < more[j].lo {
      assert out[i].hi <= BoldSubset(k - 1).hi;
    }
    ApartConcat(out, more);
    forall c: Codepoint ensures Covered(out + more, c) <==> c in coverage && InFirst(k + 1, c) {
      CoveredConcat(out, more, c);
      assert Covered(more, c) <==> c in covered;
    }
    forall j | 0 <= j < |out + more| ensures (out + more)[j].hi <= s.hi {
      if j < |out| {
        assert out[j].hi <= BoldSubset(k - 1).hi;
      } else {
        assert (out + more)[j] == more[j - |out|];
      }
    }
  }

  lemma SpansWithin(spans: seq<Span>, cps: seq<Codepoint>, s: Span)
    requires Apart(spans, 0) && forall c :: Covered(spans, c) <==> c in cps
    requires forall c :: c in cps ==> InSpan(s, c)
    ensures forall j :: 0 <= j < |spans| ==> s.lo <= spans[j].lo && spans[j].hi <= s.hi
  {
    SpanEnds(spans, cps);
  }

  lemma ApartConcat(a: seq<Span>, b: seq<Span>)
    requires Apart(a, 0) && Apart(b, 0)
    requires forall i, j :: 0 <= i < |a| && 0 <= j < |b| ==> a[i].hi + 1 < b[j].lo
    ensures Apart(a + b, 0)
  {
  }

  /** bold_ranges_for: the bold subset clipped to what the font covers. */
  method BoldRangesFor(coverage: set<Codepoint>) returns (out: seq<Span>)
    ensures Apart(out, 0)
    ensures forall c: Codepoint :: Covered(out, c) <==> c in coverage && InBoldSubset(c)
  {
    out := [];
    for k := 0 to 3
      invariant Clipped(coverage, k, out)
    {
      var s := BoldSubset(k);
      var covered := Sorted(set c | c in coverage && InSpan(s, c));
      var more := [];
      if |covered| > 0 {
        more := ContiguousRanges(covered);
      }
      ClipNext(coverage, k, out, covered, more);
      out := out + more;
    }
  }

  lemma SpanEnds(spans: seq<Span>, cps: seq<Codepoint>)
    requires Apart(spans, 0)
    requires forall c :: Covered(spans, c) <==> c in cps
    ensures forall k :: 0 <= k < |spans| ==> spans[k].lo in cps && spans[k].hi in cps
  {
    forall k | 0 <= k < |spans| ensures spans[k].lo in cps && spans[k].hi in cps {
      assert InSpan(spans[k], spans[k].lo) && InSpan(spans[k], spans[k].hi);
      assert Covered(spans, spans[k].lo) && Covered(spans, spans[k].hi);
    }
  }

  lemma CoveredConcat(a: seq<Span>, b: seq<Span>, c: int)
    ensures Covered(a + b, c) <==> Covered(a, c) || Covered(b, c)
  {
    if Covered(a, c) {
      var k :| 0 <= k < |a| && InSpan(a[k], c);
      assert (a + b)[k] == a[k];
    }
    if Covered(b, c) {
      var k :| 0 <= k < |b| && InSpan(b[k], c);
      assert (a + b)[|a| + k] == b[k];
    }
  }

  /** Every record already placed can be read back at its offset. */
  ghost predicate Pooled(code: SymbolCode, height: nat, pool: seq<Byte>, offsets: map<Record, nat>,
                         bytes: map<Record, seq<Byte>>)
    requires code.Valid()
  {
    && bytes.Keys == offsets.Keys
    && forall rec :: rec in offsets ==>
         && Holds(pool, offsets[rec], bytes[rec])
         && Stores(code, height, bytes[rec], rec)
  }

  lemma PooledAppend(code: SymbolCode, height: nat, pool: seq<Byte>, offsets: map<Record, nat>,
                     bytes: map<Record, seq<Byte>>,
                     rec: Record, more: seq<Byte>)
    requires code.Valid() && Pooled(code, height, pool, offsets, bytes) && rec !in offsets
    requires Stores(code, height, more, rec)
    ensures Pooled(code, height, pool + more, offsets[rec := |pool|], bytes[rec := more])
  {
    var longer := pool + more;
    assert forall k :: 0 <= k < |pool| ==> longer[k] == pool[k];
    assert forall k :: 0 <= k < |more| ==> longer[|pool| + k] == more[k];
    forall r | r in offsets ensures Holds(longer, offsets[r], bytes[r]) {
      assert Holds(pool, offsets[r], bytes[r]);
    }
  }

  predicate Encodable(code: SymbolCode, height: nat, rec: Record) {
    HeaderFits(height, rec) && CellFits(code.rb, rec.rows)
  }

  /** One record's bytes: they store it, and no encoding of it is shorter. */
  ghost predicate Packed(code: SymbolCode, height: nat, bytes: seq<Byte>, rec: Record)
    requires code.Valid() && HeaderFits(height, rec)
  {
    && Stores(code, height, bytes, rec)
    && |Header(height, rec)| <= |bytes|
    && (if rec.rows == [] then |bytes| == 2
        else ShortestFor(code, rec.rows, |bytes| - |Header(height, rec)|))
  }

  /** The pool is the packed records of `order`, end to end. */
  ghost predicate IsPool(code: SymbolCode, height: nat, pool: seq<Byte>, order: seq<Record>)
    requires code.Valid()
    decreases |order|
  {
    if order == [] then pool == []
    else
      var k := |order| - 1;
      exists n :: 0 <= n <= |pool| && IsPool(code, height, pool[..n], order[..k])
                  && HeaderFits(height, order[k]) && Packed(code, height, pool[n..], order[k])
  }

  lemma IsPoolAppend(code: SymbolCode, height: nat, pool: seq<Byte>, order: seq<Record>, rec: Record, more: seq<Byte>)
    requires code.Valid() && IsPool(code, height, pool, order)
    requires HeaderFits(height, rec) && Packed(code, height, more, rec)
    ensures IsPool(code, height, pool + more, order + [rec])
  {
    var all, longer := order + [rec], pool + more;
    assert all[..|order|] == order;
    assert longer[..|pool|] == pool && longer[|pool|..] == more;
  }

  /** Exactly the records of `recs`, each once. */
  ghost predicate Deduplicates(order: seq<Record>, recs: seq<Record>) {
    NoDuplicates(order) && forall rec :: rec in order <==> rec in recs
  }

  lemma DeduplicatesNext(order: seq<Record>, recs: seq<Record>, n: nat)
    requires n < |recs| && Deduplicates(order, recs[..n])
    ensures recs[..n + 1] == recs[..n] + [recs[n]]
    ensures Deduplicates(if recs[n] in order then order else order + [recs[n]], recs[..n + 1])
  {
    assert recs[..n + 1] == recs[..n] + [recs[n]];
  }

  /** build_pool: one copy of each distinct record, packed end to end. */
  method BuildPool(code: SymbolCode, height: nat, recs: seq<Record>)
    returns (pool: seq<Byte>, offsets: map<Record, nat>, ghost order: seq<Record>)
    requires code.Valid() && forall k :: 0 <= k < |recs| ==> Encodable(code, height, recs[k])
    ensures IsPool(code, height, pool, order) && Deduplicates(order, recs)
    ensures forall rec :: rec in offsets <==> rec in recs
    ensures forall rec :: rec in offsets ==> offsets[rec] <= |pool| && ReadsBack(code, height, pool, offsets[rec], rec)
  {
    pool, offsets, order := [], map[], [];
    ghost var bytes: map<Record, seq<Byte>> := map[];
    for n := 0 to |recs|
      invariant Pooled(code, height, pool, offsets, bytes)
      invariant IsPool(code, height, pool, order)
      invariant Deduplicates(order, recs[..n])
      invariant forall rec :: rec in offsets <==> rec in order
    {
      DeduplicatesNext(order, recs, n);
      if recs[n] !in offsets {
        var more := EncodeRecord(code, height, recs[n]);
        PooledAppend(code, height, pool, offsets, bytes, recs[n], more);
        IsPoolAppend(code, height, pool, order, recs[n], more);
        bytes := bytes[recs[n] := more];
        offsets := offsets[recs[n] := |pool|];
        pool := pool + more;
        order := order + [recs[n]];
      }
    }
    assert recs[..|recs|] == recs;
    forall rec | rec in offsets
      ensures offsets[rec] <= |pool| && ReadsBack(code, height, pool, offsets[rec], rec)
    {
      assert Stores(code, height, bytes[rec], rec) && Holds(pool, offsets[rec], bytes[rec]);
    }
  }

  /** Everything build_font_data computes before it lays out the indices. */
  datatype Parts = Parts(code: SymbolCode, regOffsets: map<Record, nat>, regPool: seq<Byte>,
                         boldOffsets: map<Record, nat>, boldPool: seq<Byte>)

  ghost predicate GoodParts(font: Font, p: Parts) {
    && font.Valid() && QUESTION in font.normal
    && p.code.Valid() && p.code.rb == RowBytes(font.width)
    && (forall c :: c in font.normal ==>
          Crop(font.normal[c], font.height) in p.regOffsets)
    && (forall rec {:trigger ReadsBack(p.code, font.height, p.regPool, p.regOffsets[rec], rec)} ::
          rec in p.regOffsets ==> ReadsBack(p.code, font.height, p.regPool, p.regOffsets[rec], rec))
    && (forall c :: font.IsException(c) ==>
          Crop(font.BoldForm(c), font.height) in p.boldOffsets)
    && (forall rec {:trigger ReadsBack(p.code, font.height, p.boldPool, p.boldOffsets[rec], rec)} ::
          rec in p.boldOffsets ==> ReadsBack(p.code, font.height, p.boldPool, p.boldOffsets[rec], rec))
    && (forall rec :: rec in p.boldOffsets ==> p.boldOffsets[rec] < SMEAR)
  }

  predicate ReadsBack(code: SymbolCode, height: nat, pool: seq<Byte>, off: nat, rec: Record)
    requires code.Valid()
  {
    var r := Glyphs.Read(code, height, pool, off);
    r.OneRecord? && r.rec == rec
  }

  /** The regular index entry for c: its own record, or the '?' record in a gap. */
  function RegularOffset(font: Font, p: Parts, c: Codepoint): nat
    requires GoodParts(font, p)
  {
    p.regOffsets[Crop(if c in font.normal then font.normal[c] else font.normal[QUESTION], font.height)]
  }

  function BoldOffset(font: Font, p: Parts, c: Codepoint): nat
    requires GoodParts(font, p)
  {
    if font.IsException(c) then p.boldOffsets[Crop(font.BoldForm(c), font.height)] else SMEAR
  }

  /** Which index is being laid out. */
  datatype Face = Regular | Bold

  function Offset(font: Font, p: Parts, face: Face, c: Codepoint): nat
    requires GoodParts(font, p)
  {
    if face.Regular? then RegularOffset(font, p, c) else BoldOffset(font, p, c)
  }

  ghost predicate IndexedBy(font: Font, p: Parts, face: Face, r: Range, s: Span)
    requires GoodParts(font, p)
  {
    && r.span == s && |r.idx| == s.hi - s.lo + 1
    && forall i {:trigger r.idx[i]} :: 0 <= i < |r.idx| ==> r.idx[i] == Offset(font, p, face, s.lo + i)
  }

  /** One index entry per codepoint of every range. */
  method LayOut(font: Font, p: Parts, face: Face, spans: seq<Span>) returns (ranges: seq<Range>)
    requires GoodParts(font, p) && Apart(spans, 0)
    ensures |ranges| == |spans|
    ensures forall k :: 0 <= k < |spans| ==> IndexedBy(font, p, face, ranges[k], spans[k])
  {
    hide GoodParts, Offset;
    var entry := (c: Codepoint) requires GoodParts(font, p) => Offset(font, p, face, c);
    ranges := [];
    for k := 0 to |spans|
      invariant |ranges| == k
      invariant forall j :: 0 <= j < k ==> IndexedBy(font, p, face, ranges[j], spans[j])
    {
      var r := LayOutRange(spans[k], entry);
      ranges := ranges + [r];
    }
  }

  method LayOutRange(s: Span, entry: Codepoint --> nat) returns (r: Range)
    requires s.lo <= s.hi && forall c: Codepoint :: entry.requires(c)
    ensures r.span == s && |r.idx| == s.hi - s.lo + 1
    ensures forall i {:trigger r.idx[i]} :: 0 <= i < |r.idx| ==> r.idx[i] == entry(s.lo + i)
  {
    var idx: seq<nat> := [];
    for n := 0 to s.hi - s.lo + 1
      invariant |idx| == n
      invariant forall i {:trigger idx[i]} :: 0 <= i < n ==> idx[i] == entry(s.lo + i)
    {
      idx := idx + [entry(s.lo + n)];
    }
    r := Range(s, idx);
  }

  /** The cropped records of a face, by ascending codepoint. */
  function Records(cells: map<Codepoint, Cell>, cps: seq<Codepoint>, height: nat): (recs: seq<Record>)
    requires height > 0 && forall c :: c in cps ==> c in cells && |cells[c]| == height
    ensures |recs| == |cps|
  {
    seq(|cps|, k requires 0 <= k < |cps| => Crop(cells[cps[k]], height))
  }

  lemma CropEncodable(code: SymbolCode, height: nat, cell: Cell)
    requires 0 < height < 256 && |cell| == height && CellFits(code.rb, cell)
    ensures Encodable(code, height, Crop(cell, height))
  {
  }

  /** A face's pool is made of the cropped cells of that face, each packed once. */
  ghost predicate PoolOf(code: SymbolCode, height: nat, cells: map<Codepoint, Cell>, pool: seq<Byte>)
    requires code.Valid() && height > 0 && forall c :: c in cells ==> |cells[c]| == height
  {
    exists order :: IsPool(code, height, pool, order) && NoDuplicates(order) && CropsOf(cells, height, order)
  }

  ghost predicate CropsOf(cells: map<Codepoint, Cell>, height: nat, order: seq<Record>)
    requires height > 0 && forall c :: c in cells ==> |cells[c]| == height
  {
    forall rec :: rec in order <==> exists c :: c in cells && Crop(cells[c], height) == rec
  }

  /** One face's pool, over all its cells. */
  method PoolFor(code: SymbolCode, height: nat, cells: map<Codepoint, Cell>)
    returns (pool: seq<Byte>, offsets: map<Record, nat>)
    requires code.Valid() && 0 < height < 256
    requires forall c :: c in cells ==> |cells[c]| == height && CellFits(code.rb, cells[c])
    ensures PoolOf(code, height, cells, pool)
    ensures forall c :: c in cells ==> Crop(cells[c], height) in offsets
    ensures forall rec :: rec in offsets ==> offsets[rec] <= |pool| && ReadsBack(code, height, pool, offsets[rec], rec)
  {
    var cps := Sorted(cells.Keys);
    var recs := Records(cells, cps, height);
    forall k | 0 <= k < |recs| ensures Encodable(code, height, recs[k]) {
      CropEncodable(code, height, cells[cps[k]]);
    }
    ghost var order;
    pool, offsets, order := BuildPool(code, height, recs);
    RecordsAreCrops(cells, cps, height);
    assert CropsOf(cells, height, order);
  }

  lemma RecordsAreCrops(cells: map<Codepoint, Cell>, cps: seq<Codepoint>, height: nat)
    requires height > 0 && forall c :: c in cells ==> |cells[c]| == height
    requires forall c :: c in cps <==> c in cells
    ensures forall rec :: rec in Records(cells, cps, height) <==>
              exists c :: c in cells && Crop(cells[c], height) == rec
    ensures forall c :: c in cells ==> Crop(cells[c], height) in Records(cells, cps, height)
  {
    var recs := Records(cells, cps, height);
    forall c | c in cells ensures Crop(cells[c], height) in recs {
      assert c in cps;
      var k :| 0 <= k < |cps| && cps[k] == c;
      assert recs[k] == Crop(cells[c], height);
    }
    forall rec | rec in recs ensures exists c :: c in cells && Crop(cells[c], height) == rec {
      var k :| 0 <= k < |recs| && recs[k] == rec;
      assert cps[k] in cells && Crop(cells[cps[k]], height) == rec;
    }
  }

  function Exceptions(font: Font): (m: map<Codepoint, Cell>)
    requires font.Valid()
    ensures forall c :: c in m ==> font.GoodCell(m[c])
  {
    map c | c in font.normal && font.IsException(c) :: font.BoldForm(c)
  }

  /** The bold pool is made of the true bold cells that smearing would get wrong, and of
      those only. */
  lemma OnlyExceptions(font: Font, c: Codepoint)
    requires font.Valid()
    ensures c in Exceptions(font) <==>
              && c in font.normal && (0x20 <= c <= 0x7E || 0xA0 <= c <= 0x17F || 0x400 <= c <= 0x45F)
              && (if c in font.trueBold then font.trueBold[c] else font.normal[c])
                 != SmearCell(if font.width <= 8 then 1 else 2, font.width == 8, font.normal[c])
    ensures c in Exceptions(font) ==>
              Exceptions(font)[c] == if c in font.trueBold then font.trueBold[c] else font.normal[c]
  {
  }

  function CodeFor(font: Font, palette: seq<Row>): (code: SymbolCode)
    requires |palette| <= 255 && NoDuplicates(palette)
    ensures code.Valid() && code.rb == RowBytes(font.width)
  {
    SymbolCode(RowBytes(font.width), if font.width <= 8 then [] else palette)
  }

  /** Why a build is refused. The range count is that of the only grouping of the
      covered bold codepoints into maximal runs; the byte count that of a pool with
      every distinct record of the face packed once. */
  ghost predicate Justified(font: Font, palette: seq<Row>, reason: Reason)
    requires font.Valid() && |palette| <= 255 && NoDuplicates(palette)
  {
    match reason
    case EmptyFont => font.normal == map[]
    case WrongBoldRanges(n) => n != 3 && exists spans :: |spans| == n && BoldGrouping(font, spans)
    case PoolTooLarge(bytes) => bytes > 65534 && exists pool :: |pool| == bytes && SomePool(font, palette, pool)
    case NoQuestionMark => QUESTION !in font.normal
  }

  ghost predicate SomePool(font: Font, palette: seq<Row>, pool: seq<Byte>)
    requires font.Valid() && |palette| <= 255 && NoDuplicates(palette)
  {
    || PoolOf(CodeFor(font, palette), font.height, font.normal, pool)
    || PoolOf(CodeFor(font, palette), font.height, Exceptions(font), pool)
  }

  ghost predicate BoldGrouping(font: Font, spans: seq<Span>) {
    Apart(spans, 0) && forall c: Codepoint :: Covered(spans, c) <==> c in font.normal && InBoldSubset(c)
  }

  /** build_font_data: pools for both faces over one palette, then the indices. It
      refuses a font without '?', one whose bold coverage is not three ranges, and
      one whose pool outgrows 16-bit offsets; otherwise the tables hold the font. */
  method BuildFontData(font: Font, palette: seq<Row>) returns (r: BuildResult)
    requires font.Valid()
    requires |palette| <= 255 && NoDuplicates(palette)
    ensures r.Built? ==> Faithful(font, r.tables)
    ensures r.Built? ==>
              r.tables.code == SymbolCode(if font.width <= 8 then 1 else 2, if font.width <= 8 then [] else palette)
    ensures r.Built? ==> |r.tables.regPool| <= 65534 && |r.tables.boldPool| <= 65534
    ensures r.Built? ==> r.tables.code.Valid()
                         && PoolOf(r.tables.code, font.height, font.normal, r.tables.regPool)
                         && PoolOf(r.tables.code, font.height, Exceptions(font), r.tables.boldPool)
    ensures r.Built? ==> exists spans :: |spans| == 3 && BoldGrouping(font, spans)
    ensures r.Rejected? ==> Justified(font, palette, r.reason)
  {
    if |font.normal| == 0 {
      return Rejected(EmptyFont);
    }
    var code := CodeFor(font, palette);
    var boldSpans := BoldRangesFor(font.normal.Keys);
    assert BoldGrouping(font, boldSpans);
    if |boldSpans| != 3 {
      return Rejected(WrongBoldRanges(|boldSpans|));
    }
    var regPool, regOffsets := PoolFor(code, font.height, font.normal);
    if |regPool| > MAX_POOL {
      return Rejected(PoolTooLarge(|regPool|));
    }
    var boldPool, boldOffsets := PoolFor(code, font.height, Exceptions(font));
    if |boldPool| > MAX_POOL {
      return Rejected(PoolTooLarge(|boldPool|));
    }
    if QUESTION !in font.normal {
      return Rejected(NoQuestionMark);
    }
    var p := Parts(code, regOffsets, regPool, boldOffsets, boldPool);
    PartsAreGood(font, p, Exceptions(font));
    var t := LayOutTables(font, p, boldSpans);
    r := Built(t);
  }

  /** The second half of build_font_data: merged regular ranges, plain bold ranges. */
  method LayOutTables(font: Font, p: Parts, boldSpans: seq<Span>) returns (t: Tables)
    requires GoodParts(font, p) && BoldGrouping(font, boldSpans)
    ensures Faithful(font, t) && t.code == p.code && t.regPool == p.regPool && t.boldPool == p.boldPool
  {
    var cps := Sorted(font.normal.Keys);
    NonEmptySorted(font.normal.Keys);
    var spans := ContiguousRanges(cps);
    var merged := MergeRanges(spans);
    var reg := LayOut(font, p, Regular, merged);
    var bold := LayOut(font, p, Bold, boldSpans);
    t := Tables(p.code, font.height, font.width == 8, reg, p.regPool, bold, p.boldPool);
    RegularHolds(font, p, t, merged, cps, spans);
    BoldHolds(font, p, t, boldSpans);
  }

  lemma NonEmptySorted(s: set<Codepoint>)
    ensures s != {} ==> |Sorted(s)| > 0
  {
    if s != {} {
      var c :| c in s;
      assert c in Sorted(s);
    }
  }

  lemma PartsAreGood(font: Font, p: Parts, exceptions: map<Codepoint, Cell>)
    requires font.Valid() && QUESTION in font.normal && p.code.Valid() && p.code.rb == RowBytes(font.width)
    requires exceptions == Exceptions(font)
    requires forall c :: c in font.normal ==> Crop(font.normal[c], font.height) in p.regOffsets
    requires forall c :: c in exceptions ==>
               |exceptions[c]| == font.height && Crop(exceptions[c], font.height) in p.boldOffsets
    requires forall rec :: rec in p.regOffsets ==> ReadsBack(p.code, font.height, p.regPool, p.regOffsets[rec], rec)
    requires forall rec :: rec in p.boldOffsets ==>
               p.boldOffsets[rec] <= |p.boldPool| && ReadsBack(p.code, font.height, p.boldPool, p.boldOffsets[rec], rec)
    requires |p.boldPool| <= MAX_POOL
    ensures GoodParts(font, p)
  {
    forall c | font.IsException(c) ensures Crop(font.BoldForm(c), font.height) in p.boldOffsets {
      assert c in exceptions;
    }
  }

  lemma LaidOutValid(font: Font, p: Parts, face: Face, ranges: seq<Range>, spans: seq<Span>)
    requires GoodParts(font, p) && Apart(spans, 0)
    requires |ranges| == |spans|
    requires forall k :: 0 <= k < |spans| ==> IndexedBy(font, p, face, ranges[k], spans[k])
    ensures ValidRanges(ranges) && Spans(ranges) == spans
  {
    hide Offset, GoodParts;
  }

  lemma LaidOutHit(font: Font, p: Parts, face: Face, r: Range, s: Span, c: Codepoint)
    requires GoodParts(font, p) && IndexedBy(font, p, face, r, s) && InSpan(s, c)
    ensures r.idx[c - s.lo] == Offset(font, p, face, c)
  {
    hide Offset, GoodParts;
    var i := c - s.lo;
    assert r.idx[i] == Offset(font, p, face, s.lo + i);
  }

  lemma LaidOutRanges(font: Font, p: Parts, face: Face, ranges: seq<Range>, spans: seq<Span>, c: Codepoint)
    requires GoodParts(font, p) && Apart(spans, 0)
    requires |ranges| == |spans|
    requires forall k :: 0 <= k < |spans| ==> IndexedBy(font, p, face, ranges[k], spans[k])
    ensures ValidRanges(ranges)
    ensures Lookup(ranges, c) == if Covered(spans, c) then Some(Offset(font, p, face, c)) else None
  {
    hide Offset, GoodParts, IndexedBy, Lookup;
    LaidOutValid(font, p, face, ranges, spans);
    if Covered(spans, c) {
      var k := LookupFinds(ranges, c);
      LaidOutHit(font, p, face, ranges[k], spans[k], c);
    } else {
      LookupMiss(ranges, c);
    }
  }

  lemma RegularHolds(font: Font, p: Parts, t: Tables, merged: seq<Span>, cps: seq<Codepoint>, spans: seq<Span>)
    requires GoodParts(font, p) && t.code == p.code && t.height == font.height && t.regPool == p.regPool
    requires Apart(merged, MAX_MERGE_GAP)
    requires forall c :: Covered(merged, c) <==> Covered(spans, c) || InSmallGap(spans, c)
    requires forall c :: Covered(spans, c) <==> c in cps
    requires forall c :: c in cps <==> c in font.normal
    requires |t.reg| == |merged| && forall k :: 0 <= k < |merged| ==> IndexedBy(font, p, Regular, t.reg[k], merged[k])
    ensures ValidRanges(t.reg)
    ensures forall c: Codepoint :: RegularEntry(font, t, c)
  {
    LaidOutRanges(font, p, Regular, t.reg, merged, QUESTION);
    forall c: Codepoint ensures RegularEntry(font, t, c) {
      LaidOutRanges(font, p, Regular, t.reg, merged, c);
      if Covered(merged, c) {
        var cell := if c in font.normal then font.normal[c] else font.normal[QUESTION];
        CropShows(t.code, t.height, t.regPool, p.regOffsets[Crop(cell, font.height)], cell);
      } else {
        assert !Covered(spans, c);
      }
    }
  }

  lemma BoldHolds(font: Font, p: Parts, t: Tables, spans: seq<Span>)
    requires GoodParts(font, p) && t.code == p.code && t.height == font.height && t.boldPool == p.boldPool
    requires Apart(spans, 0)
    requires forall c: Codepoint :: Covered(spans, c) <==> c in font.normal && InBoldSubset(c)
    requires |t.bold| == |spans| && forall k :: 0 <= k < |spans| ==> IndexedBy(font, p, Bold, t.bold[k], spans[k])
    ensures ValidRanges(t.bold)
    ensures forall c: Codepoint :: BoldEntry(font, t, c)
  {
    LaidOutRanges(font, p, Bold, t.bold, spans, QUESTION);
    forall c: Codepoint ensures BoldEntry(font, t, c) {
      LaidOutRanges(font, p, Bold, t.bold, spans, c);
      if Covered(spans, c) && font.IsException(c) {
        var cell := font.BoldForm(c);
        CropShows(t.code, t.height, t.boldPool, p.boldOffsets[Crop(cell, font.height)], cell);
      }
    }
  }

  lemma CropShows(code: SymbolCode, height: nat, pool: seq<Byte>, off: nat, cell: Cell)
    requires code.Valid() && |cell| == height > 0
    requires ReadsBack(code, height, pool, off, Crop(cell, height))
    ensures Shows(code, height, pool, off, cell)
  {
    if Crop(cell, height).rows == [] {
      assert Place([], 0, height) == Blank(height);
    }
  }
}
