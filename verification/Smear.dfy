/** Synthesized bold: every row is or-ed with itself shifted one pixel. The renderer
    does four byte rows, or two halfword rows, per 32-bit word; a mask keeps bits
    from crossing into the neighbouring row. */
module Smear {
  import opened FontTypes

  // ------------------------------------------------------------- one row

  /** A row as it sits in one byte, or in two: bits shifted out at the top are lost. */
  function SmearByte(left: bool, v: bv16): bv16 {
    if left then v | ((v << 1) & 0x00FF) else v | (v >> 1)
  }

  function SmearHalfword(left: bool, v: bv16): bv16 {
    if left then v | (v << 1) else v | (v >> 1)
  }

  function SmearRow(rb: nat, left: bool, r: Row): Row {
    (if rb == 1 then SmearByte(left, r as bv16) else SmearHalfword(left, r as bv16)) as Row
  }

  function SmearCell(rb: nat, left: bool, cell: Cell): (r: Cell)
    ensures |r| == |cell|
  {
    seq(|cell|, i requires 0 <= i < |cell| => SmearRow(rb, left, cell[i]))
  }

  /** smear_row of the generator picks the direction by width. */
  function GeneratorSmear(width: nat, r: Row): Row {
    var v := r as bv16;
    (if width == 8 then v | ((v << 1) & 0xFF) else v | (v >> 1)) as Row
  }

  lemma GeneratorAgrees(width: nat, r: Row)
    ensures GeneratorSmear(width, r) == SmearRow(RowBytes(width), width == 8, r)
  {
  }

  // ------------------------------------------------------------ one word

  /** Four byte rows, the first in the low lane. */
  function Pack4(a: bv16, b: bv16, c: bv16, d: bv16): bv32 {
    (a as bv32) | ((b as bv32) << 8) | ((c as bv32) << 16) | ((d as bv32) << 24)
  }

  /** Two halfword rows, the first in the low lane. */
  function Pack2(a: bv16, b: bv16): bv32 {
    (a as bv32) | ((b as bv32) << 16)
  }

  function SmearByteWord(left: bool, w: bv32): bv32 {
    if left then w | ((w << 1) & 0xFEFEFEFE) else w | ((w >> 1) & 0x7F7F7F7F)
  }

  function SmearHalfwordWord(left: bool, w: bv32): bv32 {
    if left then w | ((w << 1) & 0xFFFEFFFE) else w | ((w >> 1) & 0x7FFF7FFF)
  }

  /** Row k of a word of four. */
  function ByteLane(w: bv32, k: nat): bv16
    requires k < 4
  {
    (if k == 0 then w & 0xFF
     else if k == 1 then (w >> 8) & 0xFF
     else if k == 2 then (w >> 16) & 0xFF
     else (w >> 24) & 0xFF) as bv16
  }

  /** Row k of a word of two. */
  function HalfwordLane(w: bv32, k: nat): bv16
    requires k < 2
  {
    (if k == 0 then w & 0xFFFF else (w >> 16) & 0xFFFF) as bv16
  }

  /** No bit crosses a lane: each lane of the smeared word is that lane smeared alone. */
  lemma ByteLanesApart(left: bool, w: bv32, k: nat)
    requires k < 4
    ensures ByteLane(SmearByteWord(left, w), k) == SmearByte(left, ByteLane(w, k))
  {
    if left {
      ByteLanesLeft(w);
    } else {
      ByteLanesRight(w);
    }
  }

  lemma ByteLanesLeft(w: bv32)
    ensures var u := w | ((w << 1) & 0xFEFEFEFE);
            && (u & 0xFF) as bv16 == SmearByte(true, (w & 0xFF) as bv16)
            && ((u >> 8) & 0xFF) as bv16 == SmearByte(true, ((w >> 8) & 0xFF) as bv16)
            && ((u >> 16) & 0xFF) as bv16 == SmearByte(true, ((w >> 16) & 0xFF) as bv16)
            && ((u >> 24) & 0xFF) as bv16 == SmearByte(true, ((w >> 24) & 0xFF) as bv16)
  {
  }

  lemma ByteLanesRight(w: bv32)
    ensures var u := w | ((w >> 1) & 0x7F7F7F7F);
            && (u & 0xFF) as bv16 == SmearByte(false, (w & 0xFF) as bv16)
            && ((u >> 8) & 0xFF) as bv16 == SmearByte(false, ((w >> 8) & 0xFF) as bv16)
            && ((u >> 16) & 0xFF) as bv16 == SmearByte(false, ((w >> 16) & 0xFF) as bv16)
            && ((u >> 24) & 0xFF) as bv16 == SmearByte(false, ((w >> 24) & 0xFF) as bv16)
  {
  }

  lemma HalfwordLanesApart(left: bool, w: bv32, k: nat)
    requires k < 2
    ensures HalfwordLane(SmearHalfwordWord(left, w), k) == SmearHalfword(left, HalfwordLane(w, k))
  {
    if left {
      HalfwordLaneLeft(w, k);
    } else {
      HalfwordLaneRight(w, k);
    }
  }

  lemma HalfwordLaneLeft(w: bv32, k: nat)
    requires k < 2
    ensures HalfwordLane(SmearHalfwordWord(true, w), k) == SmearHalfword(true, HalfwordLane(w, k))
  {
    hide SmearHalfword;
    HalfwordLanesLeft(w);
  }

  lemma HalfwordLaneRight(w: bv32, k: nat)
    requires k < 2
    ensures HalfwordLane(SmearHalfwordWord(false, w), k) == SmearHalfword(false, HalfwordLane(w, k))
  {
    hide SmearHalfword;
    HalfwordLanesRight(w);
  }

  lemma HalfwordLanesLeft(w: bv32)
    ensures var u := w | ((w << 1) & 0xFFFEFFFE);
            && (u & 0xFFFF) as bv16 == SmearHalfword(true, (w & 0xFFFF) as bv16)
            && ((u >> 16) & 0xFFFF) as bv16 == SmearHalfword(true, ((w >> 16) & 0xFFFF) as bv16)
  {
  }

  lemma HalfwordLanesRight(w: bv32)
    ensures var u := w | ((w >> 1) & 0x7FFF7FFF);
            && (u & 0xFFFF) as bv16 == SmearHalfword(false, (w & 0xFFFF) as bv16)
            && ((u >> 16) & 0xFFFF) as bv16 == SmearHalfword(false, ((w >> 16) & 0xFFFF) as bv16)
  {
  }

  lemma PackByteLanes(a: bv16, b: bv16, c: bv16, d: bv16)
    requires a <= 0xFF && b <= 0xFF && c <= 0xFF && d <= 0xFF
    ensures var w := Pack4(a, b, c, d);
            ByteLane(w, 0) == a && ByteLane(w, 1) == b && ByteLane(w, 2) == c && ByteLane(w, 3) == d
  {
  }

  lemma PackHalfwordLanes(a: bv16, b: bv16)
    ensures HalfwordLane(Pack2(a, b), 0) == a && HalfwordLane(Pack2(a, b), 1) == b
  {
  }

  lemma ByteRow(r: Row)
    requires r < 256
    ensures r as bv16 <= 0xFF
  {
  }

  /** Four byte rows through one word. */
  method SmearFour(left: bool, r0: Row, r1: Row, r2: Row, r3: Row) returns (s0: Row, s1: Row, s2: Row, s3: Row)
    requires r0 < 256 && r1 < 256 && r2 < 256 && r3 < 256
    ensures s0 == SmearRow(1, left, r0) && s1 == SmearRow(1, left, r1)
    ensures s2 == SmearRow(1, left, r2) && s3 == SmearRow(1, left, r3)
  {
    ByteRow(r0); ByteRow(r1); ByteRow(r2); ByteRow(r3);
    var w := Pack4(r0 as bv16, r1 as bv16, r2 as bv16, r3 as bv16);
    PackByteLanes(r0 as bv16, r1 as bv16, r2 as bv16, r3 as bv16);
    ByteLanesApart(left, w, 0); ByteLanesApart(left, w, 1); ByteLanesApart(left, w, 2); ByteLanesApart(left, w, 3);
    w := SmearByteWord(left, w);
    s0, s1, s2, s3 := ByteLane(w, 0) as Row, ByteLane(w, 1) as Row, ByteLane(w, 2) as Row, ByteLane(w, 3) as Row;
  }

  /** Two halfword rows through one word. */
  method SmearTwo(left: bool, r0: Row, r1: Row) returns (s0: Row, s1: Row)
    ensures s0 == SmearRow(2, left, r0) && s1 == SmearRow(2, left, r1)
  {
    var w := Pack2(r0 as bv16, r1 as bv16);
    PackHalfwordLanes(r0 as bv16, r1 as bv16);
    HalfwordLanesApart(left, w, 0); HalfwordLanesApart(left, w, 1);
    w := SmearHalfwordWord(left, w);
    s0, s1 := HalfwordLane(w, 0) as Row, HalfwordLane(w, 1) as Row;
  }

  // ----------------------------------------------------------- in place

  /** Rows up to n smeared, the rest as they were. */
  ghost predicate SmearedUpTo(rb: nat, left: bool, before: Cell, now: Cell, n: nat) {
    && |now| == |before|
    && (forall k :: 0 <= k < |now| && k < n ==> now[k] == SmearRow(rb, left, before[k]))
    && (forall k :: n <= k < |now| ==> now[k] == before[k])
  }

  /** The word holding rows i to i+3. */
  method SmearWordAt(out: array<Row>, i: nat, left: bool)
    requires i + 4 <= out.Length && CellFits(1, out[i..i + 4])
    modifies out
    ensures forall k :: 0 <= k < out.Length ==>
              out[k] == if i <= k < i + 4 then SmearRow(1, left, old(out[k])) else old(out[k])
  {
    assert forall k :: i <= k < i + 4 ==> out[k] == out[i..i + 4][k - i];
    var s0, s1, s2, s3 := SmearFour(left, out[i], out[i + 1], out[i + 2], out[i + 3]);
    out[i], out[i + 1], out[i + 2], out[i + 3] := s0, s1, s2, s3;
  }

  method SmearBytes(out: array<Row>, left: bool)
    requires out.Length % 4 == 0 && CellFits(1, out[..])
    modifies out
    ensures out[..] == SmearCell(1, left, old(out[..]))
  {
    ghost var before := out[..];
    for i := 0 to out.Length / 4
      invariant SmearedUpTo(1, left, before, out[..], 4 * i)
    {
      assert forall k :: 4 * i <= k < 4 * i + 4 ==> out[k] == before[k];
      SmearWordAt(out, 4 * i, left);
    }
  }

  /** The word holding rows i and i+1. */
  method SmearHalfwordsAt(out: array<Row>, i: nat, left: bool)
    requires i + 2 <= out.Length
    modifies out
    ensures forall k :: 0 <= k < out.Length ==>
              out[k] == if i <= k < i + 2 then SmearRow(2, left, old(out[k])) else old(out[k])
  {
    var s0, s1 := SmearTwo(left, out[i], out[i + 1]);
    out[i], out[i + 1] := s0, s1;
  }

  method SmearHalfwords(out: array<Row>, left: bool)
    requires out.Length % 2 == 0
    modifies out
    ensures out[..] == SmearCell(2, left, old(out[..]))
  {
    ghost var before := out[..];
    for i := 0 to out.Length / 2
      invariant SmearedUpTo(2, left, before, out[..], 2 * i)
    {
      SmearHalfwordsAt(out, 2 * i, left);
    }
  }

  /** smear_glyph: word-parallel when the rows fill whole words, else row by row. */
  method SmearGlyph(out: array<Row>, rb: nat, left: bool)
    requires rb == 1 || rb == 2
    requires CellFits(rb, out[..])
    modifies out
    ensures out[..] == SmearCell(rb, left, old(out[..]))
  {
    if rb == 1 && out.Length % 4 == 0 {
      SmearBytes(out, left);
    } else if rb == 2 && out.Length % 2 == 0 {
      SmearHalfwords(out, left);
    } else {
      ghost var before := out[..];
      for r := 0 to out.Length
        invariant SmearedUpTo(rb, left, before, out[..], r)
      {
        out[r] := SmearRow(rb, left, out[r]);
      }
    }
  }
}
