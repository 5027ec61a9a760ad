/** CRT line wobble (components/display/render_fx_pass.c): per-scanline word offsets,
    filled band by band. */
module Wobble {
  import opened Geometry

  /** One sine of horizontal amplitudes per frame number, at most 6 pixels. */
  type Lut = l: seq<int> | |l| == 256 && (forall i :: 0 <= i < 256 ==> -6 <= l[i] <= 6)
    witness seq(256, _ => 0)

  /** One vertical period of a sine, scaled to 127. */
  function Envelope(k: nat): (e: int)
    requires k < 16
    ensures -126 <= e <= 126
  {
    [46, 86, 114, 126, 122, 101, 67, 23, -23, -67, -101, -122, -126, -114, -86, -46][k]
  }

  /** Amplitude drift of the frame: 12/16 to 19/16. The C shift of a negative product
      rounds down, like division here. */
  function Amplitude(dx: int, frame: nat): int
    requires frame < 256
  {
    var h := (frame / 4) * 2246822519 % 0x1_0000_0000;
    (dx * (12 + h / 128 % 8)) / 16
  }

  /** -1, 0 or 1 from a hash of the absolute scanline and the frame. */
  function Jitter(y: nat, frame: nat): (j: int)
    ensures -1 <= j <= 1
  {
    var a := (y * 2654435761 % 0x1_0000_0000) as bv32;
    var b := ((frame / 2) * 2246822519 % 0x1_0000_0000) as bv32;
    ((a ^ b) >> 9) as int % 3 - 1
  }

  /** `(d / 2) * 2` in C: toward zero. */
  function TowardZeroEven(d: int): (e: int)
    ensures e % 2 == 0 && (if d >= 0 then d - 1 <= e <= d else d <= e <= d + 1)
  {
    if d >= 0 then d / 2 * 2 else -((-d) / 2 * 2)
  }

  /** The top line of the wiggle: it walks down the screen as frames pass. */
  function Top(frame: nat): nat { frame * 5 / 2 }

  /** Pixels scanline y is displaced by in this frame: a function of y and the frame
      alone, so neighbouring bands agree at their seam. */
  function Pixels(lut: Lut, frame: nat, y: nat): (d: int)
    requires frame < 256
  {
    var k := y - Top(frame);
    if lut[frame] == 0 || k < 0 || k >= 16 then 0
    else TowardZeroEven((Amplitude(lut[frame], frame) * Envelope(k) + 64) / 128) + 2 * Jitter(y, frame)
  }

  /** The envelope is one period of a sine: its second half mirrors the first. */
  lemma EnvelopeIsOdd(k: nat)
    requires k < 8
    ensures Envelope(k) == [46, 86, 114, 126, 122, 101, 67, 23][k]
    ensures Envelope(15 - k) == -Envelope(k)
  {
    match k
    case 0 => case 1 => case 2 => case 3 => case 4 => case 5 => case 6 => case 7 =>
  }

  /** The wiggle starts at the top and walks down five lines every two frames; it covers
      sixteen lines, and only while the sine has an amplitude. */
  lemma TopWalks(lut: Lut, frame: nat, y: nat)
    requires frame < 256
    ensures Top(0) == 0 && Top(1) == 2 && Top(frame + 2) == Top(frame) + 5
    ensures Pixels(lut, frame, y) != 0 ==> lut[frame] != 0 && Top(frame) <= y <= Top(frame) + 15
  {
    hide Amplitude, Jitter, Envelope;
  }

  /** The amplitude is the sine's times a sixteenth of 12 to 19, rounded down; the jitter
      moves a line one word at most. */
  lemma AmplitudeDrifts(dx: int, frame: nat)
    requires frame < 256
    ensures var m := 12 + (frame / 4 * 2246822519 % 0x1_0000_0000) / 128 % 8;
            12 <= m <= 19 && Amplitude(dx, frame) * 16 <= dx * m < Amplitude(dx, frame) * 16 + 16
  {
  }

  const MAX_WORDS := 5

  lemma AmplitudeBound(dx: int, frame: nat)
    requires frame < 256 && -6 <= dx <= 6
    ensures -8 <= Amplitude(dx, frame) <= 7
  {
    var h := (frame / 4) * 2246822519 % 0x1_0000_0000;
    var m := 12 + h / 128 % 8;
    assert 12 <= m <= 19;
    ProductBound(dx, 6, m, 19);
  }

  lemma ProductBound(a: int, p: int, b: int, q: int)
    requires -p <= a <= p && -q <= b <= q
    ensures -(p * q) <= a * b <= p * q
  {
    if b >= 0 {
      assert a * b <= p * b <= p * q && -(p * b) <= a * b;
    } else {
      assert a * b == (-a) * (-b);
      assert (-a) * (-b) <= p * (-b) <= p * q && -(p * (-b)) <= (-a) * (-b);
    }
  }

  /** The displacement is an even number of pixels, at most ten: whole words, at most
      five, so the scan can apply it and every line keeps some text. */
  lemma PixelsBound(lut: Lut, frame: nat, y: nat)
    requires frame < 256
    ensures Pixels(lut, frame, y) % 2 == 0
    ensures -2 * MAX_WORDS <= Pixels(lut, frame, y) <= 2 * MAX_WORDS
  {
    hide Amplitude, Jitter, Top, Envelope;
    var k := y - Top(frame);
    if 0 <= k < 16 {
      AmplitudeBound(lut[frame], frame);
      ProductBound(Amplitude(lut[frame], frame), 8, Envelope(k), 126);
    }
  }

  /** Words scanline y is displaced by. */
  function Words(lut: Lut, frame: nat, y: nat): (w: int)
    requires frame < 256
    ensures 2 * w == Pixels(lut, frame, y) && -MAX_WORDS <= w <= MAX_WORDS
  {
    PixelsBound(lut, frame, y);
    Pixels(lut, frame, y) / 2
  }

  /** The bound is reached: at the strongest setting (amplitude -6 in frame 190) line
      478 moves five words, more than one four-word cell of the 8-pixel font. */
  lemma FiveWordsHappen(lut: Lut)
    requires lut[190] == -6
    ensures Words(lut, 190, 478) == -MAX_WORDS
  {
    hide Jitter;
    JitterAt190();
    assert Top(190) == 475 && Envelope(3) == 126;
    assert Amplitude(-6, 190) == -8;
  }

  /** So a displacement stays within one cell, for every setting, frame and line, exactly
      when cells are at least ten pixels wide: of the admitted widths, all but the
      eight-pixel font. */
  lemma WithinOneCell(g: Geom)
    requires Legal(g)
    ensures (forall lut: Lut, frame: nat, y: nat | frame < 256 :: -(g.fw / 2) <= Words(lut, frame, y) <= g.fw / 2)
            <==> g.fw >= 10
  {
    hide Words, Legal;
    BandDividesRow(g);
    if g.fw < 10 {
      var strong: Lut := seq(256, _ => -6);
      FiveWordsHappen(strong);
      assert Words(strong, 190, 478) < -(g.fw / 2);
    }
  }

  lemma JitterAt190()
    ensures Jitter(478, 190) == -1
  {
    var a, b: bv32 := 1804941438, 2994741801;
    FromInt(478 * 2654435761 % 0x1_0000_0000, a);
    FromInt((190 / 2) * 2246822519 % 0x1_0000_0000, b);
    assert (a ^ b) >> 9 == 7113357;
  }

  lemma FromInt(v: int, x: bv32)
    requires v == x as int
    ensures 0 <= v < 0x1_0000_0000 && v as bv32 == x
  {
  }

  predicate Moves(out: seq<int>) {
    exists n :: 0 <= n < |out| && out[n] != 0
  }

  lemma MovesUpdate(out: seq<int>, n: nat, v: int)
    requires n < |out| && out[n] == 0
    ensures Moves(out[n := v]) <==> Moves(out) || v != 0
  {
    var more := out[n := v];
    if v != 0 {
      assert more[n] != 0;
    }
    if Moves(out) {
      var m :| 0 <= m < |out| && out[m] != 0;
      assert more[m] != 0;
    }
  }

  /** render_fx_wobble_offsets: one word offset per line of the band, and whether any
      line moves. */
  method Offsets(on: bool, lut: Lut, frame: nat, start: nat, lines: nat) returns (out: seq<int>, any: bool)
    requires frame < 256
    ensures |out| == lines
    ensures forall n :: 0 <= n < lines ==> out[n] == if on then Words(lut, frame, start + n) else 0
    ensures any <==> Moves(out)
  {
    hide Words, Amplitude, Jitter, Envelope, TowardZeroEven, Top;
    out := seq(lines, _ => 0);
    any := false;
    if !on {
      return;
    }
    var dx := lut[frame];
    var n0 := Top(frame) - start;
    var k := 0;
    while k < 16 && dx != 0
      invariant 0 <= k <= 16 && |out| == lines
      invariant forall n :: 0 <= n < lines ==> out[n] == if n0 <= n < n0 + k then Words(lut, frame, start + n) else 0
      invariant any <==> Moves(out)
    {
      var n := n0 + k;
      if 0 <= n < lines {
        var y := start + n;
        var d := TowardZeroEven((Amplitude(dx, frame) * Envelope(k) + 64) / 128);
        var j := Hashed(y, frame);
        d := d + 2 * j;
        LineOffset(lut, frame, y, k);
        MovesUpdate(out, n, d / 2);
        out := out[n := d / 2];
        any := any || d / 2 != 0;
      }
      k := k + 1;
    }
    forall n | 0 <= n < lines ensures out[n] == Words(lut, frame, start + n) {
      OutsideWiggle(lut, frame, start + n);
    }
  }

  /** The jitter of one line. */
  method Hashed(y: nat, frame: nat) returns (j: int)
    ensures j == Jitter(y, frame)
  {
    var ofLine := (y * 2654435761 % 0x1_0000_0000) as bv32;
    var ofFrame := ((frame / 2) * 2246822519 % 0x1_0000_0000) as bv32;
    var hr := ofLine ^ ofFrame;
    j := (hr >> 9) as int % 3 - 1;
  }

  lemma LineOffset(lut: Lut, frame: nat, y: nat, k: nat)
    requires frame < 256 && k < 16 && y - Top(frame) == k && lut[frame] != 0
    ensures Words(lut, frame, y) ==
            (TowardZeroEven((Amplitude(lut[frame], frame) * Envelope(k) + 64) / 128) + 2 * Jitter(y, frame)) / 2
  {
    hide Amplitude, Jitter, Envelope, TowardZeroEven, Top;
  }

  lemma OutsideWiggle(lut: Lut, frame: nat, y: nat)
    requires frame < 256
    ensures lut[frame] == 0 || y < Top(frame) || y >= Top(frame) + 16 ==> Words(lut, frame, y) == 0
  {
    hide Amplitude, Jitter, Envelope, TowardZeroEven, Top;
  }
}
