/** Whole runs of the renderer: frames in order, and bands in any order with the shell's
    calls between them. Every field of every view is determined by what came before. */
module Runs {
  import opened FontTypes
  import opened Geometry
  import opened Transitions
  import opened Picture
  import opened RowCache
  import opened Passes
  import opened Renderer
  import Wobble

  // ---------------------------------------------------------------- frames

  /** The state after one tick per element. */
  function AfterTicks(d: Display, published: seq<Option<Effects>>): Display
    decreases |published|
  {
    if published == [] then d
    else TickedDisplay(AfterTicks(d, published[..|published| - 1]), published[|published| - 1])
  }

  lemma OneMoreTick(d: Display, published: seq<Option<Effects>>, k: nat)
    requires k < |published|
    ensures AfterTicks(d, published[..k + 1]) == TickedDisplay(AfterTicks(d, published[..k]), published[k])
  {
    assert published[..k + 1][..k] == published[..k];
  }

  /** A frame is drawn from its own scene as the k-th tick left the effects. */
  ghost predicate FrameOf(fb: seq<Word>, k: nat, g: Geom, cols: nat, rows: nat, d: Display, age: nat,
                          scenes: seq<Scene>, luts: seq<Wobble.Lut>, published: seq<Option<Effects>>)
    requires k < |scenes| == |luts| == |published|
  {
    FrameShows(fb, scenes[k], ViewOf(g, cols, rows, AfterTicks(d, published[..k + 1])), luts[k], Tag(age + k + 1))
  }

  /** Any number of frames, the scene changing between them: each shows its own scene
      under exactly the effects, transition window and cursor phase of its frame, and none
      is drawn from an earlier one's cache, however often the frame byte has wrapped. */
  method Frames(p: Panel, scenes: seq<Scene>, luts: seq<Wobble.Lut>, published: seq<Option<Effects>>)
    returns (frames: seq<seq<Word>>)
    requires p.Valid() && p.Registered() && |scenes| == |luts| == |published|
    requires forall k :: 0 <= k < |scenes| ==> WellFormed(scenes[k], p.cols, p.rows, p.g.fh)
    modifies p`snap, p`frame, p`age, p`fx, p`cursor, p.cache
    ensures p.Valid() && p.age == old(p.age) + |scenes| && |frames| == |scenes|
    ensures forall k :: 0 <= k < |scenes| ==>
              FrameOf(frames[k], k, p.g, p.cols, p.rows, old(p.State()), old(p.age), scenes, luts, published)
    ensures scenes != [] ==>
              Display(p.snap, p.fx, p.cursor, None) == AfterTicks(old(p.State()), published)
  {
    hide FrameShows, Window, WellFormed, CursorTicked, Legal, Inv, TextFits, Cache.Holds, Cache.Fresh, FrameOf;
    frames := [];
    ghost var d := p.State();
    var k := 0;
    while k < |scenes|
      invariant 0 <= k <= |scenes| == |luts| == |published| && p.Valid() && p.Registered()
      invariant p.age == old(p.age) + k && |frames| == k
      invariant (p.snap, p.fx, p.cursor) == SettingsOf(AfterTicks(d, published[..k]))
      invariant forall j :: 0 <= j < k ==>
                  FrameOf(frames[j], j, p.g, p.cols, p.rows, d, old(p.age), scenes, luts, published)
    {
      var fb := p.RenderFrame(scenes[k], luts[k], published[k]);
      OneMoreTick(d, published, k);
      assert FrameOf(fb, k, p.g, p.cols, p.rows, d, old(p.age), scenes, luts, published) by {
        NowIs(p.Now(), fb, k, p.g, p.cols, p.rows, d, old(p.age), scenes, luts, published);
      }
      frames := frames + [fb];
      k := k + 1;
    }
    assert published[..|published|] == published;
  }

  function SettingsOf(d: Display): (Effects, Fx, Cursor) { (d.snap, d.fx, d.cursor) }

  lemma NowIs(v: View, fb: seq<Word>, k: nat, g: Geom, cols: nat, rows: nat, d: Display, age: nat,
              scenes: seq<Scene>, luts: seq<Wobble.Lut>, published: seq<Option<Effects>>)
    requires k < |scenes| == |luts| == |published|
    requires v == ViewOf(g, cols, rows, AfterTicks(d, published[..k + 1]))
    requires FrameShows(fb, scenes[k], v, luts[k], Tag(age + k + 1))
    ensures FrameOf(fb, k, g, cols, rows, d, age, scenes, luts, published)
  {
  }

  // ------------------------------------------------------- bands and calls

  /** A band drawn by the interrupt, or something the shell does in between. */
  datatype Event =
    | Band(b: nat, scene: Scene, lut: Wobble.Lut, published: Option<Effects>)
    | Arming(step: Step)
    | Point(x: int, y: int, mode: CursorMode)

  /** The state one event later. */
  function AfterEvent(g: Geom, rows: nat, d: Display, e: Event): Display
    requires g.fh > 0
  {
    match e
    case Band(b, s, _, published) => AfterBand(g, rows, d, b, s, published).0
    case Arming(step) => d.(fx := Next(d.fx, step))
    case Point(x, y, mode) => d.(cursor := CursorMoved(d.cursor, x, y, mode))
  }

  function AfterEvents(g: Geom, rows: nat, d: Display, events: seq<Event>): Display
    requires g.fh > 0
    decreases |events|
  {
    if events == [] then d
    else AfterEvent(g, rows, AfterEvents(g, rows, d, events[..|events| - 1]), events[|events| - 1])
  }

  /** Frames begun. */
  function FramesIn(events: seq<Event>): nat
    decreases |events|
  {
    if events == [] then 0 else FramesIn(events[..|events| - 1]) + Begins(events[|events| - 1])
  }

  function Begins(e: Event): nat { if e.Band? && e.b == 0 then 1 else 0 }

  lemma OneMoreEvent(g: Geom, rows: nat, d: Display, events: seq<Event>, k: nat)
    requires g.fh > 0 && k < |events|
    ensures AfterEvents(g, rows, d, events[..k + 1]) ==
            AfterEvent(g, rows, AfterEvents(g, rows, d, events[..k]), events[k])
    ensures FramesIn(events[..k + 1]) == FramesIn(events[..k]) + Begins(events[k])
  {
    assert events[..k + 1][..k] == events[..k];
  }

  ghost predicate Playable(e: Event, cols: nat, rows: nat, fh: nat) {
    match e
    case Band(_, s, _, _) => WellFormed(s, cols, rows, fh)
    case Arming(step) => step != Tick
    case Point(_, _, _) => true
  }

  /** The words of event k: a band shows the reference picture of the scene and the state
      the events before it leave, every other event draws nothing. */
  ghost predicate EventShows(words: seq<Word>, k: nat, g: Geom, cols: nat, rows: nat, d: Display, age: nat,
                             events: seq<Event>)
    requires k < |events| && g.fh > 0 && g.fw > 0
  {
    match events[k]
    case Band(b, s, lut, published) =>
      var (now, shown) := AfterBand(g, rows, AfterEvents(g, rows, d, events[..k]), b, s, published);
      && WellFormed(shown, cols, rows, g.fh)
      && BandShows(words, shown, ViewOf(g, cols, rows, now), lut, Tag(age + FramesIn(events[..k + 1])), StartOf(g, b))
    case _ => words == []
  }

  /** Any run: bands in any order, arming stores, cursor moves and changes of the scene
      anywhere between them. Each band shows exactly what its history says. */
  method Perform(p: Panel, events: seq<Event>) returns (drawn: seq<seq<Word>>)
    requires p.Valid() && p.Registered()
    requires forall k :: 0 <= k < |events| ==> Playable(events[k], p.cols, p.rows, p.g.fh)
    modifies p`snap, p`frame, p`age, p`fx, p`cursor, p.cache
    ensures p.Valid() && p.Registered() && p.g.fh > 0 && p.g.fw > 0 && |drawn| == |events|
    ensures forall k :: 0 <= k < |events| ==>
              EventShows(drawn[k], k, p.g, p.cols, p.rows, old(p.State()), old(p.age), events)
    ensures p.State() == AfterEvents(p.g, p.rows, old(p.State()), events)
  {
    hide EventShows, Playable, Window, WellFormed, CursorTicked, CursorMoved, Legal, Inv, TextFits, Cache.Holds,
         Cache.Fresh, AfterEvent;
    BandDividesRow(p.g);
    drawn := [];
    ghost var d := p.State();
    var k := 0;
    while k < |events|
      invariant 0 <= k <= |events| && p.Valid() && p.Registered() && |drawn| == k
      invariant p.age == old(p.age) + FramesIn(events[..k]) && p.State() == AfterEvents(p.g, p.rows, d, events[..k])
      invariant forall j :: 0 <= j < k ==> EventShows(drawn[j], j, p.g, p.cols, p.rows, d, old(p.age), events)
    {
      OneMoreEvent(p.g, p.rows, d, events, k);
      var words := PerformOne(p, d, old(p.age), events, k);
      drawn := drawn + [words];
      k := k + 1;
    }
    assert events[..|events|] == events;
  }

  method PerformOne(p: Panel, ghost d: Display, ghost age: nat, events: seq<Event>, k: nat) returns (words: seq<Word>)
    requires p.Valid() && p.Registered() && p.g.fh > 0 && p.g.fw > 0 && k < |events|
    requires Playable(events[k], p.cols, p.rows, p.g.fh)
    requires p.age == age + FramesIn(events[..k]) && p.State() == AfterEvents(p.g, p.rows, d, events[..k])
    requires FramesIn(events[..k + 1]) == FramesIn(events[..k]) + Begins(events[k])
    modifies p`snap, p`frame, p`age, p`fx, p`cursor, p.cache
    ensures p.Valid() && p.age == old(p.age) + Begins(events[k])
    ensures p.State() == AfterEvent(p.g, p.rows, old(p.State()), events[k])
    ensures EventShows(words, k, p.g, p.cols, p.rows, d, age, events)
  {
    hide BandShows, Window, WellFormed, CursorTicked, CursorMoved, Legal, Inv, TextFits, Cache.Holds, Cache.Fresh,
         AfterBand, AfterEvents, FramesIn, StartOf;
    words := [];
    match events[k] {
      case Band(b, s, lut, published) =>
        BandDividesRow(p.g);
        var dst := new Word[p.g.band * LINE_WORDS];
        ghost var shown := p.RenderChunk(dst, StartOf(p.g, b) * WIDTH, 2 * p.g.band * WIDTH, b, s, lut, published);
        words := dst[..];
      case Arming(step) =>
        p.ArmingStep(step);
      case Point(x, y, mode) =>
        p.SetCursor(x, y, mode);
    }
  }
}
