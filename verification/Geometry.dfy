/** The band geometry and the guard that admits it (components/display/display_render.c). */
module Geometry {
  import opened Arith

  const WIDTH := 800
  const HEIGHT := 480
  /** 32-bit words of one scanline. */
  const LINE_WORDS := 400
  const FONT_MAX_COLS := 100
  const FONT_MAX_BAND := 16

  datatype Geom = Geom(fw: nat, fh: nat, band: nat)

  /** One row per band up to 16 lines, else half a row; halving an odd height in C
      drops the remainder. */
  function BandOf(height: int): int {
    if height > 16 then height / 2 else height
  }

  /** display_render_set_font's test. */
  predicate Accepts(width: int, height: int) {
    var band := BandOf(height);
    && width > 0 && height > 0
    && width % 2 == 0 && band % 2 == 0
    && height % band == 0
    && HEIGHT % height == 0 && HEIGHT % band == 0
    && WIDTH / width <= FONT_MAX_COLS
  }

  predicate Legal(g: Geom) {
    Accepts(g.fw, g.fh) && g.band == BandOf(g.fh)
  }

  /** The sizes the guard admits: even widths from eight pixels; even heights up to 16
      lines, multiples of four above, that divide the panel. */
  lemma AcceptsExactly(width: int, height: int)
    ensures Accepts(width, height) <==>
              && width >= 8 && width % 2 == 0
              && height > 0 && 480 % height == 0 && (if height <= 16 then height % 2 == 0 else height % 4 == 0)
    ensures height % 2 == 0 ==> if height <= 16 then BandOf(height) == height else 2 * BandOf(height) == height
  {
    if width > 0 && height > 0 {
      WidthFits(width);
      if height > 16 {
        HeightFits(height, height / 2);
      }
    }
  }

  lemma HeightFits(height: nat, band: nat)
    requires height > 16 && band == height / 2
    ensures band % 2 == 0 && height % band == 0 && HEIGHT % height == 0 && HEIGHT % band == 0 <==>
            480 % height == 0 && height % 4 == 0
  {
    DivUnique(height, band, 2, height % 2);
    if height % 2 == 0 && HEIGHT % height == 0 {
      DivMod(HEIGHT, height);
      HalfDivides(HEIGHT / height, height, band);
    }
  }

  lemma HalfDivides(q: nat, height: nat, band: nat)
    requires HEIGHT == q * height && height == 2 * band > 0
    ensures HEIGHT % band == 0
  {
    assert HEIGHT == (2 * q) * band;
    DivUnique(HEIGHT, band, 2 * q, 0);
  }

  lemma WidthFits(width: nat)
    requires width > 0
    ensures WIDTH / width <= FONT_MAX_COLS <==> width >= 8
  {
    DivMod(WIDTH, width);
    if width >= 8 {
      DivMonotone(WIDTH, 100 * width + width - 1, width);
      DivUnique(100 * width + width - 1, width, 100, width - 1);
    } else {
      DivMonotone(101 * width, WIDTH, width);
      DivUnique(101 * width, width, 101, 0);
    }
  }

  /** The three shipped sizes are admitted, with bands of 16, 10 and 12 lines. */
  lemma ShippedSizes()
    ensures Accepts(8, 16) && Accepts(10, 20) && Accepts(12, 24)
    ensures BandOf(16) == 16 && BandOf(20) == 10 && BandOf(24) == 12
  {
  }

  /** A band is a whole row or exactly half of one. */
  lemma BandDividesRow(g: Geom)
    requires Legal(g)
    ensures g.band > 0 && g.band % 2 == 0 && g.fw >= 8
    ensures g.fh == g.band || g.fh == 2 * g.band
  {
    if g.fh > 16 {
      DivUnique(g.fh, g.band, 2, g.fh - 2 * g.band);
    }
    if g.fw < 8 {
      DivMonotone(100 * g.fw + g.fw, WIDTH, g.fw);
      DivUnique(101 * g.fw, g.fw, 101, 0);
    }
  }

  /** A line of band b lies in the same character row as the band's first line, at its
      own offset from that line: bands never straddle a row, and keep line parity. */
  lemma BandInRow(g: Geom, b: nat, n: nat)
    requires Legal(g) && n < g.band
    ensures (b * g.band + n) / g.fh == b * g.band / g.fh
    ensures (b * g.band + n) % g.fh == b * g.band % g.fh + n < g.fh
    ensures (b * g.band + n) % 2 == n % 2
  {
    hide Legal;
    BandDividesRow(g);
    LineParity(b, g.band, n);
    if g.fh == g.band {
      LineInRow(b * g.band, g.fh, b, 0, n);
    } else {
      HalfRow(b, g.band, g.fh);
      LineInRow(b * g.band, g.fh, b / 2, if b % 2 == 0 then 0 else g.band, n);
    }
  }

  lemma LineParity(b: nat, band: nat, n: nat)
    requires band % 2 == 0
    ensures (b * band + n) % 2 == n % 2
  {
    EvenMultiple(b, band);
    SameParity(b * (band / 2), n);
  }

  lemma EvenMultiple(b: nat, band: nat)
    requires band % 2 == 0
    ensures b * band == 2 * (b * (band / 2))
  {
  }

  lemma SameParity(k: nat, n: nat)
    ensures (2 * k + n) % 2 == n % 2
  {
  }

  lemma HalfRow(b: nat, band: nat, fh: nat)
    requires fh == 2 * band
    ensures b * band == b / 2 * fh + if b % 2 == 0 then 0 else band
  {
    var r := b / 2;
    assert r * fh == 2 * (r * band);
    if b % 2 == 0 {
      assert b == 2 * r;
      assert b * band == 2 * (r * band);
    } else {
      assert b == 2 * r + 1;
      assert b * band == 2 * (r * band) + band;
    }
  }

  lemma LineInRow(start: nat, fh: nat, row: nat, g0: nat, n: nat)
    requires start == row * fh + g0 && g0 + n < fh
    ensures (start + n) / fh == start / fh && (start + n) % fh == start % fh + n
  {
    DivUnique(start, fh, row, g0);
    DivUnique(start + n, fh, row, g0 + n);
  }

  /** The bands of a frame cover each scanline of the panel exactly once. */
  lemma BandsTilePanel(g: Geom, y: nat)
    requires Legal(g) && y < HEIGHT
    ensures y / g.band < HEIGHT / g.band && (y / g.band) * g.band <= y < (y / g.band + 1) * g.band
    ensures forall b :: 0 <= b && b * g.band <= y < (b + 1) * g.band ==> b == y / g.band
    ensures HEIGHT / g.band * g.band == HEIGHT
  {
    BandDividesRow(g);
    var bands := HEIGHT / g.band;
    DivMod(y, g.band);
    DivMod(HEIGHT, g.band);
    assert (y / g.band + 1) * g.band == y / g.band * g.band + g.band;
    DivBounds(y, g.band, 0, bands - 1);
    forall b | 0 <= b && b * g.band <= y < (b + 1) * g.band ensures b == y / g.band {
      assert (b + 1) * g.band == b * g.band + g.band;
      DivUnique(y, g.band, b, y - b * g.band);
    }
  }

  /** The guard does not look at the statically sized band buffers: an admitted height
      fits them exactly up to 32 lines. Every shipped size (16, 20, 24) does. */
  lemma BandFitsBuffers(g: Geom)
    requires Legal(g)
    ensures g.band <= FONT_MAX_BAND <==> g.fh <= 32
  {
    BandDividesRow(g);
  }

  /** An admitted height that does not: 40-line cells make 20-line bands. */
  lemma FortyIsAdmitted()
    ensures Accepts(20, 40) && BandOf(40) > FONT_MAX_BAND
  {
  }
}
