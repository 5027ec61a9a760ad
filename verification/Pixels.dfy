/** Pixel pairs: the scan writes two RGB565 pixels per 32-bit word and looks the pair up
    by two glyph bits (components/display/render_cache.c), where the reference computes
    each pixel from its own bit (scan_gpair, components/display/render_scan.c). */
module Pixels {
  import opened Arith

  type Color = bv16
  type Word = bv32

  // ----------------------------------------------------------- glyph bits

  /** r >> k. */
  function Shr(r: nat, k: nat): nat {
    if k == 0 then r else Shr(r, k - 1) / 2
  }

  /** Bit k of a glyph row; bit w-1 is the leftmost pixel of a w-pixel cell. */
  predicate Bit(r: nat, k: nat) {
    Shr(r, k) % 2 == 1
  }

  function Pow2(k: nat): (p: nat)
    ensures p > 0
  {
    if k == 0 then 1 else 2 * Pow2(k - 1)
  }

  lemma {:induction false} ShrDivides(r: nat, k: nat)
    ensures Shr(r, k) == r / Pow2(k)
  {
    if k > 0 {
      ShrDivides(r, k - 1);
      var p, q := Pow2(k - 1), r / Pow2(k - 1);
      DivMod(r, p);
      if q % 2 == 0 {
        Doubled(q / 2, p);
        DivUnique(r, 2 * p, q / 2, r % p);
      } else {
        Doubled(q / 2, p);
        DivUnique(r, 2 * p, q / 2, p + r % p);
      }
    }
  }

  lemma Doubled(h: nat, p: nat)
    ensures (2 * h) * p == h * (2 * p) && (2 * h + 1) * p == h * (2 * p) + p
  {
  }

  /** Bit k is binary digit k of the row. */
  lemma BitIsDigit(r: nat, k: nat)
    ensures Bit(r, k) <==> r / Pow2(k) % 2 == 1
  {
    ShrDivides(r, k);
  }

  // ---------------------------------------------------------- pixel pairs

  /** The left pixel sits in the low half. */
  function Pair(left: Color, right: Color): Word {
    (left as bv32) | ((right as bv32) << 16)
  }

  function LeftOf(w: Word): Color { (w & 0xFFFF) as bv16 }

  function RightOf(w: Word): Color { (w >> 16) as bv16 }

  lemma PairParts(left: Color, right: Color)
    ensures LeftOf(Pair(left, right)) == left && RightOf(Pair(left, right)) == right
  {
  }

  /** One pixel as the reference computes it: mask the difference of the two colours. */
  function MaskedPixel(lit: bool, bg: Color, xf: Color): Color {
    bg ^ (xf & (if lit then 0xFFFF else 0))
  }

  lemma MaskedPicks(lit: bool, fg: Color, bg: Color)
    ensures MaskedPixel(lit, bg, fg ^ bg) == if lit then fg else bg
  {
    if lit {
      XorBack(fg, bg);
    } else {
      XorNothing(fg ^ bg, bg);
    }
  }

  lemma XorBack(fg: Color, bg: Color)
    ensures bg ^ ((fg ^ bg) & 0xFFFF) == fg
    ensures bg ^ (fg ^ bg) == fg
  {
  }

  lemma XorNothing(xf: Color, bg: Color)
    ensures bg ^ (xf & 0) == bg
  {
  }

  /** scan_gpair: pixels p and p+1 of a w-pixel row. */
  function GPair(row: nat, w: nat, p: nat, bg: Color, xf: Color): Word
    requires p + 2 <= w
  {
    Pair(MaskedPixel(Bit(row, w - 1 - p), bg, xf), MaskedPixel(Bit(row, w - 2 - p), bg, xf))
  }

  /** build_pair_lut: index bit 1 is the left pixel, bit 0 the right. */
  function PairLut(fg: Color, bg: Color): (lut: seq<Word>)
    ensures |lut| == 4
  {
    [Pair(bg, bg), Pair(bg, fg), Pair(fg, bg), Pair(fg, fg)]
  }

  /** (row >> (w-2-p)) & 3. */
  function LutIndex(row: nat, w: nat, p: nat): (i: nat)
    requires p + 2 <= w
    ensures i < 4
  {
    Shr(row, w - 2 - p) % 4
  }

  /** The two-bit index is the two pixels' bits. */
  lemma LutIndexBits(row: nat, w: nat, p: nat)
    requires p + 2 <= w
    ensures LutIndex(row, w, p) == (if Bit(row, w - 1 - p) then 2 else 0) + (if Bit(row, w - 2 - p) then 1 else 0)
  {
    var x := Shr(row, w - 2 - p);
    assert Shr(row, w - 1 - p) == x / 2;
  }

  /** The table lookup gives the pixels the reference computes, for every row, width,
      position and pair of colours. */
  lemma LutIsGPair(row: nat, w: nat, p: nat, fg: Color, bg: Color)
    requires p + 2 <= w
    ensures PairLut(fg, bg)[LutIndex(row, w, p)] == GPair(row, w, p, bg, fg ^ bg)
    ensures PairLut(fg, bg)[LutIndex(row, w, p)] ==
            Pair(if Bit(row, w - 1 - p) then fg else bg, if Bit(row, w - 2 - p) then fg else bg)
  {
    LutIndexBits(row, w, p);
    MaskedPicks(Bit(row, w - 1 - p), fg, bg);
    MaskedPicks(Bit(row, w - 2 - p), fg, bg);
  }

  /** The columns keep bg and the difference fg ^ bg; xoring them gives fg back. */
  function Xor(a: Color, b: Color): Color { a ^ b }

  lemma XorRecovers(fg: Color, bg: Color)
    ensures Xor(bg, Xor(fg, bg)) == fg
  {
    XorBack(fg, bg);
  }

  /** The cursor inverts both pixels at once. */
  function Invert(w: Word): Word { w ^ 0xFFFF_FFFF }

  function InvertPixel(p: Color): Color { p ^ 0xFFFF }

  lemma InvertParts(w: Word)
    ensures LeftOf(Invert(w)) == InvertPixel(LeftOf(w)) && RightOf(Invert(w)) == InvertPixel(RightOf(w))
  {
  }

  // -------------------------------------------------------- colour tricks

  /** Scanline dim: 15/16 of each channel, without borrow between channels. */
  function Dim565(p: Color): Color {
    p - ((p >> 4) & 0x0861)
  }

  /** Red and blue are put on green's six-bit scale before they are weighed. */
  function Mix(r: bv32, g: bv32, b: bv32): bv32 {
    Sixteenth((r << 1) * 5, g * 9, (b << 1) * 2)
  }

  function Sixteenth(x: bv32, y: bv32, z: bv32): bv32 {
    (x + y + z) >> 4
  }

  /** Luma in 0..62. */
  function Luma32(p: Color): bv32 {
    Mix((p as bv32 >> 11) & 0x1F, (p as bv32 >> 5) & 0x3F, p as bv32 & 0x1F)
  }

  /** Luma onto a phosphor ramp: mode 1 green, else amber. */
  function Mono565(p: Color, mode: nat): Color {
    var y := Luma32(p);
    if mode == 1 then ((y << 5) & 0xFFFF) as bv16
    else ((((y >> 1) << 11) | (((y * 11) >> 4) << 5)) & 0xFFFF) as bv16
  }

  /** Bold pop: brighten by half again, saturating each channel's bits. */
  function BoldPop565(p: Color): Color {
    p | ((p >> 1) & 0x7BEF)
  }

  /** Modal scrim: half brightness. */
  function Scrim565(p: Color): Color {
    (p >> 1) & 0x7BEF
  }

  // --------------------------------------------------------------- channels

  /** The five, six and five bits of a colour. */
  function Red(p: Color): bv16 { p >> 11 }

  function Green(p: Color): bv16 { (p >> 5) & 0x3F }

  function Blue(p: Color): bv16 { p & 0x1F }

  lemma Reassembled(p: Color)
    ensures p == (Red(p) << 11) | (Green(p) << 5) | Blue(p)
  {
  }

  lemma ChannelsDetermine(p: Color, q: Color)
    requires Red(p) == Red(q) && Green(p) == Green(q) && Blue(p) == Blue(q)
    ensures p == q
  {
    hide Red, Green, Blue;
    Reassembled(p);
    Reassembled(q);
  }

  /** A dimmed scanline loses a sixteenth of each channel, and no channel borrows. */
  lemma DimByChannel(p: Color)
    ensures Red(Dim565(p)) == Red(p) - Red(p) / 16
    ensures Green(Dim565(p)) == Green(p) - Green(p) / 16
    ensures Blue(Dim565(p)) == Blue(p) - Blue(p) / 16
  {
  }

  /** The scrim halves each channel. */
  lemma ScrimByChannel(p: Color)
    ensures Red(Scrim565(p)) == Red(p) / 2 && Green(Scrim565(p)) == Green(p) / 2 && Blue(Scrim565(p)) == Blue(p) / 2
  {
  }

  /** Bold pop sets in each channel the bits of its half. */
  lemma BoldPopByChannel(p: Color)
    ensures Red(BoldPop565(p)) == Red(p) | (Red(p) / 2)
    ensures Green(BoldPop565(p)) == Green(p) | (Green(p) / 2)
    ensures Blue(BoldPop565(p)) == Blue(p) | (Blue(p) / 2)
  {
  }

  /** The luma of a colour, from its channels. */
  function Luma(p: Color): bv32 {
    Weighed(Red(p) as bv32, Green(p) as bv32, Blue(p) as bv32)
  }

  function Weighed(r: bv32, g: bv32, b: bv32): bv32 {
    Sixteenth(10 * r, 9 * g, 4 * b)
  }

  lemma ChannelsFit(p: Color)
    ensures (p as bv32 >> 11) & 0x1F == Red(p) as bv32 <= 31
    ensures (p as bv32 >> 5) & 0x3F == Green(p) as bv32 <= 63
    ensures p as bv32 & 0x1F == Blue(p) as bv32 <= 31
  {
  }

  lemma LumaFits(p: Color)
    ensures Luma32(p) == Luma(p) <= 62
  {
    hide Red, Green, Blue, Mix, Weighed;
    ChannelsFit(p);
    MixWeighs(Red(p) as bv32, Green(p) as bv32, Blue(p) as bv32);
  }

  lemma MixWeighs(r: bv32, g: bv32, b: bv32)
    requires r <= 31 && g <= 63 && b <= 31
    ensures Mix(r, g, b) == Weighed(r, g, b) <= 62
  {
    hide Sixteenth;
    Scaled(r, b);
    WeightsFit(r, g, b);
    SixteenthFits(10 * r, 9 * g, 4 * b);
  }

  /** The luma is a sixteenth of the weighed channels, rounded down. */
  lemma WeighedIs(r: bv32, g: bv32, b: bv32)
    ensures Weighed(r, g, b) == (10 * r + 9 * g + 4 * b) >> 4
  {
  }

  lemma Scaled(r: bv32, b: bv32)
    ensures (r << 1) * 5 == 10 * r && (b << 1) * 2 == 4 * b
  {
  }

  lemma WeightsFit(r: bv32, g: bv32, b: bv32)
    requires r <= 31 && g <= 63 && b <= 31
    ensures 10 * r <= 310 && 9 * g <= 567 && 4 * b <= 124
  {
  }

  lemma SixteenthFits(x: bv32, y: bv32, z: bv32)
    requires x <= 310 && y <= 567 && z <= 124
    ensures Sixteenth(x, y, z) <= 62
    ensures 16 * Sixteenth(x, y, z) <= x + y + z < 16 * Sixteenth(x, y, z) + 16
  {
  }

  lemma GreenRamp(y: bv32)
    requires y <= 62
    ensures var c := ((y << 5) & 0xFFFF) as bv16;
            Red(c) == 0 && Green(c) as bv32 == y && Blue(c) == 0
  {
  }

  lemma AmberRamp(y: bv32)
    requires y <= 62
    ensures var c := ((((y >> 1) << 11) | (((y * 11) >> 4) << 5)) & 0xFFFF) as bv16;
            Red(c) as bv32 == y >> 1 && Green(c) as bv32 == (y * 11) >> 4 && Blue(c) == 0
  {
  }

  /** The green phosphor shows the luma; the amber one half of it in red and eleven
      sixteenths in green. */
  lemma MonoByChannel(p: Color, mode: nat)
    ensures mode == 1 ==>
              Red(Mono565(p, mode)) == 0 && Green(Mono565(p, mode)) as bv32 == Luma(p) && Blue(Mono565(p, mode)) == 0
    ensures mode != 1 ==>
              Red(Mono565(p, mode)) as bv32 == Luma(p) >> 1 && Green(Mono565(p, mode)) as bv32 == (Luma(p) * 11) >> 4
              && Blue(Mono565(p, mode)) == 0
  {
    hide Luma, Luma32, Red, Green, Blue;
    LumaFits(p);
    GreenRamp(Luma32(p));
    AmberRamp(Luma32(p));
  }

  /** The focus wash: half of each channel over half brightness. */
  function Wash565(p: Color): Color {
    ((p >> 1) & 0x7BEF) + 0x7BEF
  }

  lemma WashByChannel(p: Color)
    ensures Red(Wash565(p)) == Red(p) / 2 + 15
    ensures Green(Wash565(p)) == Green(p) / 2 + 31
    ensures Blue(Wash565(p)) == Blue(p) / 2 + 15
  {
  }

  /** Text on a tinted bar: a quarter of each channel over three quarters brightness. */
  function Tint565(p: Color): Color {
    ((p >> 2) & 0x39E7) + 0x7BEF + 0x39E7
  }

  lemma TintByChannel(p: Color)
    ensures Red(Tint565(p)) == Red(p) / 4 + 22
    ensures Green(Tint565(p)) == Green(p) / 4 + 46
    ensures Blue(Tint565(p)) == Blue(p) / 4 + 22
  {
  }
}
