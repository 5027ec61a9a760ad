/** Wipe and collapse transitions: the shell arms them store by store
    (components/display/display_fx.c) while the display interrupt ticks the counters and
    derives a clip window from them (components/display/render_fx_pass.c). */
module Transitions {
  import opened Arith
  import opened Geometry
  import opened Pixels

  // ----------------------------------------------------------------- state

  /** An arming call on its way; `pc` counts its stores done. */
  datatype Arming = Unarmed | Wiping(pc: nat, frames: nat) | Collapsing(pc: nat, frames: nat)

  datatype Fx = Fx(wipeLeft: int, wipeTotal: int, collapseLeft: int, collapseTotal: int, arming: Arming)

  const OFF := Fx(0, 0, 0, 0, Unarmed)

  /** display_fx_set clamps both durations to this range. */
  predicate Duration(frames: nat) {
    4 <= frames <= 120
  }

  datatype Step = CallWipe(frames: nat) | CallCollapse(frames: nat) | Store | Tick

  /** The next store of the arming call. The counter goes to zero before the total is
      rewritten, and is set last. */
  function StoreNext(fx: Fx): Fx {
    match fx.arming
    case Unarmed => fx
    case Wiping(pc, f) =>
      if pc == 0 then fx.(collapseLeft := 0, arming := Wiping(1, f))
      else if pc == 1 then fx.(wipeLeft := 0, arming := Wiping(2, f))
      else if pc == 2 then fx.(wipeTotal := f, arming := Wiping(3, f))
      else fx.(wipeLeft := f, arming := Unarmed)
    case Collapsing(pc, f) =>
      if pc == 0 then fx.(wipeLeft := 0, arming := Collapsing(1, f))
      else if pc == 1 then fx.(collapseLeft := 0, arming := Collapsing(2, f))
      else if pc == 2 then fx.(collapseTotal := f, arming := Collapsing(3, f))
      else fx.(collapseLeft := f, arming := Unarmed)
  }

  /** The countdown part of render_fx_frame_tick. */
  function Ticked(fx: Fx): Fx {
    fx.(wipeLeft := CountDown(fx.wipeLeft), collapseLeft := CountDown(fx.collapseLeft))
  }

  function CountDown(left: int): int {
    if left > 0 then left - 1 else left
  }

  function Next(fx: Fx, step: Step): Fx {
    match step
    case CallWipe(f) => if fx.arming == Unarmed && Duration(f) then fx.(arming := Wiping(0, f)) else fx
    case CallCollapse(f) => if fx.arming == Unarmed && Duration(f) then fx.(arming := Collapsing(0, f)) else fx
    case Store => StoreNext(fx)
    case Tick => Ticked(fx)
  }

  // ------------------------------------------------------------ clip window

  /** Scanlines [wv0, wv1) show content, the two edge ranges a bright line. */
  datatype Clip = Clip(active: bool, wv0: int, wv1: int, ea0: int, ea1: int, eb0: int, eb1: int, ecol: Color)

  const OPEN := Clip(false, 0, HEIGHT, 0, 0, 0, 0, 0)

  /** Half the height a collapse still shows; zero by the time the last two frames flash. */
  function CollapseHalf(fx: Fx): int
    requires fx.collapseTotal > 2
  {
    (HEIGHT / 2) * (fx.collapseLeft - 2) / (fx.collapseTotal - 2)
  }

  function CollapseClip(fx: Fx): Clip
    requires fx.collapseTotal > 2
  {
    if fx.collapseLeft <= 2 then
      Clip(true, 0, 0, HEIGHT / 2 - 1, HEIGHT / 2 + 1, 0, 0, 0xFFFF)
    else
      Clip(true, HEIGHT / 2 - CollapseHalf(fx), HEIGHT / 2 + CollapseHalf(fx),
           HEIGHT / 2 - CollapseHalf(fx), HEIGHT / 2 - CollapseHalf(fx) + 2,
           HEIGHT / 2 + CollapseHalf(fx) - 2, HEIGHT / 2 + CollapseHalf(fx), 0xFFFF)
  }

  /** Lines a wipe has revealed. */
  function Reveal(fx: Fx): int
    requires fx.wipeTotal > 0
  {
    HEIGHT * (fx.wipeTotal - fx.wipeLeft) / fx.wipeTotal
  }

  function WipeClip(fx: Fx): Clip
    requires fx.wipeTotal > 0
  {
    Clip(true, 0, Reveal(fx), Reveal(fx), Min(Reveal(fx) + 2, HEIGHT), 0, 0, 0x07FF)
  }

  /** render_fx_clip_window. */
  function Window(fx: Fx): Clip {
    if fx.collapseLeft > 0 && fx.collapseTotal > 2 then CollapseClip(fx)
    else if fx.wipeLeft > 0 && fx.wipeTotal > 0 then WipeClip(fx)
    else OPEN
  }

  function Min(a: int, b: int): int { if a < b then a else b }

  // ------------------------------------------------------------- invariant

  predicate Inv(fx: Fx) {
    && 0 <= fx.wipeLeft <= fx.wipeTotal <= 120
    && 0 <= fx.collapseLeft <= fx.collapseTotal <= 120
    && (fx.wipeLeft == 0 || fx.collapseLeft == 0)
    && (fx.collapseTotal == 0 || fx.collapseTotal >= 4)
    && match fx.arming
       case Unarmed => true
       case Wiping(pc, f) => pc < 4 && Duration(f) && (pc >= 1 ==> fx.collapseLeft == 0)
                             && (pc >= 2 ==> fx.wipeLeft == 0) && (pc >= 3 ==> fx.wipeTotal == f)
       case Collapsing(pc, f) => pc < 4 && Duration(f) && (pc >= 1 ==> fx.wipeLeft == 0)
                                 && (pc >= 2 ==> fx.collapseLeft == 0) && (pc >= 3 ==> fx.collapseTotal == f)
  }

  lemma TickKeepsInv(fx: Fx)
    requires Inv(fx)
    ensures Inv(Ticked(fx))
  {
  }

  function Run(fx: Fx, steps: seq<Step>): Fx
    decreases |steps|
  {
    if steps == [] then fx else Run(Next(fx, steps[0]), steps[1..])
  }

  lemma {:induction false} RunKeepsInv(fx: Fx, steps: seq<Step>)
    requires Inv(fx)
    ensures Inv(Run(fx, steps))
    decreases |steps|
  {
    if steps != [] {
      RunKeepsInv(Next(fx, steps[0]), steps[1..]);
    }
  }

  /** In every reachable state, whatever arming and frames did: wipe and collapse are
      never both running, no counter exceeds its total, and the window is a range of
      panel lines, clipped exactly while a counter runs. */
  lemma WindowIsSound(steps: seq<Step>)
    ensures var fx := Run(OFF, steps);
            && Inv(fx)
            && (Window(fx).active <==> fx.wipeLeft > 0 || fx.collapseLeft > 0)
            && 0 <= Window(fx).wv0 <= Window(fx).wv1 <= HEIGHT
            && (!Window(fx).active ==> Window(fx) == OPEN)
  {
    var fx := Run(OFF, steps);
    RunKeepsInv(OFF, steps);
    if fx.collapseLeft > 2 {
      FractionBounds(HEIGHT / 2, fx.collapseLeft - 2, fx.collapseTotal - 2);
    }
    if fx.wipeLeft > 0 {
      FractionBounds(HEIGHT, fx.wipeTotal - fx.wipeLeft, fx.wipeTotal);
    }
  }

  predicate Shows(c: Clip, y: int) { c.wv0 <= y < c.wv1 }

  /** From one frame to the next a running collapse only hides lines and a running wipe
      only reveals them. */
  lemma WindowMovesOneWay(fx: Fx, y: int)
    requires Inv(fx) && Window(fx).active && Window(Ticked(fx)).active
    ensures fx.collapseLeft > 0 && Shows(Window(Ticked(fx)), y) ==> Shows(Window(fx), y)
    ensures fx.wipeLeft > 0 && Shows(Window(fx), y) ==> Shows(Window(Ticked(fx)), y)
  {
    var n := Ticked(fx);
    if fx.collapseLeft > 3 {
      DivMonotone((HEIGHT / 2) * (n.collapseLeft - 2), (HEIGHT / 2) * (fx.collapseLeft - 2), fx.collapseTotal - 2);
    }
    if fx.wipeLeft > 1 {
      DivMonotone(HEIGHT * (fx.wipeTotal - fx.wipeLeft), HEIGHT * (n.wipeTotal - n.wipeLeft), fx.wipeTotal);
    }
  }

  function Ticks(n: nat): seq<Step> {
    seq(n, _ => Tick)
  }

  lemma {:induction false} TickDown(fx: Fx, n: nat)
    requires Inv(fx)
    ensures var r := Run(fx, Ticks(n));
            && r.wipeLeft == (if fx.wipeLeft > n then fx.wipeLeft - n else 0)
            && r.collapseLeft == (if fx.collapseLeft > n then fx.collapseLeft - n else 0)
            && r.wipeTotal == fx.wipeTotal && r.collapseTotal == fx.collapseTotal && r.arming == fx.arming
    decreases n
  {
    if n > 0 {
      assert Ticks(n)[0] == Tick && Ticks(n)[1..] == Ticks(n - 1);
      TickDown(Ticked(fx), n - 1);
    }
  }

  /** A completed arming call runs for exactly its frames: the transition is the only
      one active, it is still active after each earlier tick, and over at the last. */
  lemma RunsItsFrames(fx: Fx, wipe: bool, frames: nat, n: nat)
    requires Inv(fx) && fx.arming == Unarmed && Duration(frames)
    ensures var armed := Run(fx, [if wipe then CallWipe(frames) else CallCollapse(frames), Store, Store, Store, Store]);
            var now := Run(armed, Ticks(n));
            && armed.arming == Unarmed
            && (wipe ==> armed.wipeLeft == armed.wipeTotal == frames && armed.collapseLeft == 0)
            && (!wipe ==> armed.collapseLeft == armed.collapseTotal == frames && armed.wipeLeft == 0)
            && (Window(now).active <==> n < frames)
  {
    var call := if wipe then CallWipe(frames) else CallCollapse(frames);
    var steps := [call, Store, Store, Store, Store];
    var a := Next(fx, call);
    var b := Next(a, Store);
    var c := Next(b, Store);
    var d := Next(c, Store);
    var armed := Next(d, Store);
    assert steps[1..] == [Store, Store, Store, Store];
    assert steps[1..][1..] == [Store, Store, Store];
    assert Run(d, [Store]) == armed;
    assert Run(c, [Store, Store]) == Run(d, [Store, Store][1..]);
    assert [Store, Store][1..] == [Store] && [Store, Store, Store][1..] == [Store, Store];
    assert Run(b, [Store, Store, Store]) == armed;
    assert Run(fx, steps) == Run(a, steps[1..]) == Run(b, steps[1..][1..]);
    TickDown(armed, n);
  }

  // ------------------------------------------------------------ hidden bands

  predicate InEdge(c: Clip, y: int) {
    (c.ea0 <= y < c.ea1) || (c.eb0 <= y < c.eb1)
  }

  /** What clipping leaves of a word of scanline y (render_fx_clip_apply). */
  function Clipped(c: Clip, y: int, w: Word): Word {
    if !c.active then w
    else if InEdge(c, y) then Pair(c.ecol, c.ecol)
    else if y < c.wv0 || y >= c.wv1 then 0
    else w
  }

  /** render_fx_band_hidden. */
  predicate BandHidden(c: Clip, y0: int, lines: nat) {
    c.active && (y0 >= c.wv1 || y0 + lines <= c.wv0)
  }

  /** A word of a hidden band as the shortcut draws it (render_fx_fill_hidden). */
  function HiddenWord(c: Clip, y: int): Word {
    if InEdge(c, y) then Pair(c.ecol, c.ecol) else 0
  }

  /** The shortcut draws what rendering and then clipping would, whatever was rendered. */
  lemma HiddenIsClipped(c: Clip, y0: int, lines: nat, y: int, w: Word)
    requires BandHidden(c, y0, lines) && y0 <= y < y0 + lines
    ensures Clipped(c, y, w) == HiddenWord(c, y)
  {
  }

  /** The shortcut takes exactly the bands without a visible line, whenever the window
      shows anything at all. */
  lemma HiddenOrVisible(c: Clip, y0: int, lines: nat)
    requires c.active && lines > 0 && c.wv0 <= c.wv1
    ensures (exists y :: y0 <= y < y0 + lines && Shows(c, y)) <==> !BandHidden(c, y0, lines) && c.wv0 < c.wv1
  {
    if !BandHidden(c, y0, lines) && c.wv0 < c.wv1 {
      assert Shows(c, if y0 >= c.wv0 then y0 else c.wv0);
    }
  }

  /** No admitted band straddles the middle of the panel, where a collapse closes. */
  lemma MiddleIsABandEdge(g: Geom)
    requires Legal(g)
    ensures g.band > 0 && HEIGHT / 2 % g.band == 0
  {
    BandDividesRow(g);
    assert HEIGHT % g.fh == 0 && (g.fh <= 16 ==> g.band == g.fh);
    hide Legal;
    if g.fh == 2 * g.band {
      DivMod(HEIGHT, g.fh);
      DivUnique(HEIGHT / 2, g.band, HEIGHT / g.fh, 0);
    } else {
      WholeRowBand(g.band);
    }
  }

  lemma WholeRowBand(band: nat)
    requires 0 < band <= 16 && band % 2 == 0 && HEIGHT % band == 0
    ensures HEIGHT / 2 % band == 0
  {
    match band
    case 2 => case 4 => case 6 => case 8 => case 10 => case 12 => case 14 => case _ =>
  }

  /** So on every admitted geometry and in every reachable state the shortcut takes
      exactly the bands of which no line is visible, an empty window included. */
  lemma ShortcutIsExact(g: Geom, steps: seq<Step>, b: nat)
    requires Legal(g)
    ensures var c := Window(Run(OFF, steps));
            c.active ==> (BandHidden(c, b * g.band, g.band) <==>
                          forall y :: b * g.band <= y < b * g.band + g.band ==> !Shows(c, y))
  {
    hide Legal, Run;
    var fx := Run(OFF, steps);
    var c := Window(fx);
    WindowIsSound(steps);
    BandDividesRow(g);
    if c.active {
      HiddenOrVisible(c, b * g.band, g.band);
      if c.wv0 == c.wv1 {
        EmptyWindow(fx);
        MiddleIsABandEdge(g);
        EdgeNotInside(HEIGHT / 2, b, g.band);
      }
    }
  }

  /** An empty window closed at the top or in the middle. */
  lemma EmptyWindow(fx: Fx)
    requires Inv(fx) && Window(fx).active && Window(fx).wv0 == Window(fx).wv1
    ensures Window(fx).wv0 == 0 || Window(fx).wv0 == HEIGHT / 2
  {
  }

  lemma EdgeNotInside(edge: nat, b: nat, band: nat)
    requires band > 0 && edge % band == 0
    ensures b * band >= edge || b * band + band <= edge
  {
    DivMod(edge, band);
    if b < edge / band {
      MulMonotone(b + 1, edge / band, band);
      assert (b + 1) * band == b * band + band;
    } else {
      MulMonotone(edge / band, b, band);
    }
  }
}
