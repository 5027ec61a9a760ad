/** The same update with the cache fill on another core: the fill's generation read,
    buffer choice, each copied byte, generation check and tag store interleave freely
    with the writer's micro-steps. The generation check alone then gives less than it
    does on one core: it declines exactly the fills a bump fell into, and what it lets
    through is one whole bitmap, but that can be the previous one. */
module SpriteRace {
  import opened FontTypes
  import opened GlyphCache
  import opened SpriteProtocol

  /** A fill in progress. `since` (history only) counts the slot's generation bumps
      between the fill's read and its check; `image` (history only) is the bitmap the
      slot showed when the fill chose its buffer. */
  datatype Fill =
    | NoFill
    | Started(key: Key, way: nat, gen: nat, since: nat)
    | Reading(key: Key, way: nat, gen: nat, since: nat, second: bool, copied: Bitmap, image: Bitmap)
    | Checked(key: Key, way: nat, since: nat, publish: bool, image: Bitmap)

  datatype Race = Race(st: State, fill: Fill)

  datatype RaceStep = SetCalled(slot: nat, rows: Bitmap) | Written | Start(key: Key) | Choose | Copy | Check | Store

  /** The history count of a fill of the bumped slot. */
  function Bumped(f: Fill, slot: nat): Fill
    requires !f.NoFill? ==> IsSprite(f.key)
  {
    match f
    case Started(k, way, gen, since) => if SlotOf(k) == slot then Started(k, way, gen, since + 1) else f
    case Reading(k, way, gen, since, second, copied, image) =>
      if SlotOf(k) == slot then Reading(k, way, gen, since + 1, second, copied, image) else f
    case _ => f
  }

  predicate RaceShape(r: Race) {
    && Shape(r.st) && WriterShape(r.st)
    && (!r.fill.NoFill? ==> IsSprite(r.fill.key) && r.fill.way < 2)
  }

  /** The line being filled. */
  function Line(f: Fill): (i: nat)
    requires !f.NoFill? && f.way < 2
    ensures i < 2 * SETS
  {
    2 * SetOf(f.key) + f.way
  }

  function Source(r: Race): Bitmap
    requires RaceShape(r) && r.fill.Reading?
  {
    r.st.rows[BufferIndex(SlotOf(r.fill.key), r.fill.second)]
  }

  function RaceNext(r: Race, step: RaceStep): Race
    requires RaceShape(r)
  {
    var st := r.st;
    match step
    case SetCalled(slot, rows) =>
      var next := Begin(st, slot, rows);
      Race(next, if next != st then Bumped(r.fill, slot) else r.fill)
    case Written => r.(st := Advance(st))
    case Start(k) =>
      var w := WaysAt(st, SetOf(k));
      if !r.fill.NoFill? || !IsSprite(k) || w.Holds(k) then r
      else Race(st.(victims := st.victims[SetOf(k) := w.Access(k).victim]),
          Started(k, w.WayFor(k), st.gen[SlotOf(k)], 0))
    case Choose =>
      if !r.fill.Started? then r
      else
        var slot := SlotOf(r.fill.key);
        Race(st.(lines := st.lines[Line(r.fill) := []]),
             Reading(r.fill.key, r.fill.way, r.fill.gen, r.fill.since, st.active[slot], [], Shown(st, slot)))
    case Copy =>
      if !r.fill.Reading? || |r.fill.copied| >= |Source(r)| then r
      else
        var more := r.fill.copied + [Source(r)[|r.fill.copied|]];
        Race(st.(lines := st.lines[Line(r.fill) := more]), r.fill.(copied := more))
    case Check =>
      if !r.fill.Reading? || |r.fill.copied| < |Source(r)| then r
      else r.(fill := Checked(r.fill.key, r.fill.way, r.fill.since, st.gen[SlotOf(r.fill.key)] == r.fill.gen,
          r.fill.image))
    case Store =>
      if !r.fill.Checked? then r
      else Race(st.(tags := st.tags[Line(r.fill) := if r.fill.publish then r.fill.key else EMPTY]), NoFill)
  }

  /** While no bump has fallen into the fill, its buffer still holds the bitmap it
      chose: either that is still the one shown, or the call already under way has
      flipped past it and no new call has started. */
  predicate Kept(r: Race)
    requires RaceShape(r) && r.fill.Reading?
  {
    var slot := SlotOf(r.fill.key);
    && Source(r) == r.fill.image
    && r.fill.copied <= r.fill.image && r.st.lines[Line(r.fill)] == r.fill.copied
    && (r.fill.second != r.st.active[slot] ==>
          !((r.st.writer.Copying? || r.st.writer.Dropping? || r.st.writer.Flipping?) && r.st.writer.slot == slot))
  }

  predicate RaceInv(r: Race) {
    && RaceShape(r)
    && (forall s :: 0 <= s < SPRITE_COUNT ==> r.st.gen[s] < 256)
    && match r.fill
       case NoFill => true
       case Started(k, _, gen, since) =>
         gen < 256 && r.st.gen[SlotOf(k)] == (gen + since) % 256
       case Reading(k, _, gen, since, _, _, _) =>
         gen < 256 && r.st.gen[SlotOf(k)] == (gen + since) % 256 && (since == 0 ==> Kept(r))
       case Checked(k, _, since, publish, image) =>
         && (publish <==> since % 256 == 0)
         && (since == 0 ==> r.st.lines[Line(r.fill)] == image)
  }

  lemma BumpsShow(gen: nat, since: nat)
    requires gen < 256
    ensures (gen + since) % 256 == gen <==> since % 256 == 0
  {
    assert (gen + since) % 256 == (gen + since % 256) % 256;
  }

  lemma WrittenKeeps(r: Race)
    requires RaceInv(r)
    ensures RaceInv(RaceNext(r, Written))
  {
    hide SetOf, IsSprite;
    AdvanceKeepsLines(r.st);
    if r.fill.Reading? && r.fill.since == 0 {
      WrittenKeepsFill(r);
    }
    hide Advance, Kept;
  }

  lemma AdvanceKeepsLines(st: State)
    requires Shape(st) && WriterShape(st)
    ensures var next := Advance(st);
            Shape(next) && WriterShape(next) && next.gen == st.gen && next.lines == st.lines
  {
    hide SetOf;
  }

  lemma WrittenKeepsFill(r: Race)
    requires RaceInv(r) && r.fill.Reading? && r.fill.since == 0
    ensures RaceShape(r.(st := Advance(r.st))) && Kept(r.(st := Advance(r.st)))
  {
    hide SetOf, IsSprite;
  }

  lemma RaceNextKeeps(r: Race, step: RaceStep)
    requires RaceInv(r)
    ensures RaceInv(RaceNext(r, step))
  {
    match step {
      case Written => WrittenKeeps(r);
      case Check =>
        if r.fill.Reading? {
          BumpsShow(r.fill.gen, r.fill.since);
        }
      case SetCalled(_, _) => SetCalledKeeps(r, step);
      case _ => hide SetOf, IsSprite, Ways.WayFor;
    }
  }

  lemma SetCalledKeeps(r: Race, step: RaceStep)
    requires RaceInv(r) && step.SetCalled?
    ensures RaceInv(RaceNext(r, step))
  {
    hide SetOf, IsSprite;
    var next := Begin(r.st, step.slot, step.rows);
    assert next.lines == r.st.lines && next.active == r.st.active && next.rows == r.st.rows;
    if r.fill.Reading? {
      hide Begin;
    }
  }

  function RaceRun(r: Race, steps: seq<RaceStep>): Race
    requires RaceInv(r)
    decreases |steps|
  {
    if steps == [] then r
    else
      RaceNextKeeps(r, steps[0]);
      RaceRun(RaceNext(r, steps[0]), steps[1..])
  }

  /** Under every interleaving a finished fill publishes exactly when the number of
      bumps between its generation read and its check is a multiple of 256: one to 255
      updates in between always make it decline. A fill no bump fell into has copied
      one whole bitmap, the one shown when it chose its buffer. */
  lemma {:induction false} DeclinesWhenOvertaken(r: Race, steps: seq<RaceStep>)
    requires RaceInv(r)
    ensures RaceInv(RaceRun(r, steps))
    ensures var now := RaceRun(r, steps);
            now.fill.Checked? ==>
              && (now.fill.publish <==> now.fill.since % 256 == 0)
              && (0 < now.fill.since < 256 ==> RaceNext(now, Store).st.tags[Line(now.fill)] == EMPTY)
              && (now.fill.since == 0 ==>
                    && now.st.lines[Line(now.fill)] == now.fill.image
                    && RaceNext(now, Store).st.tags[Line(now.fill)] == now.fill.key)
    decreases |steps|
  {
    if steps != [] {
      RaceNextKeeps(r, steps[0]);
      DeclinesWhenOvertaken(RaceNext(r, steps[0]), steps[1..]);
    }
  }

  lemma RunCons(r: Race, step: RaceStep, rest: seq<RaceStep>)
    requires RaceInv(r)
    ensures RaceInv(RaceNext(r, step))
    ensures RaceRun(r, [step] + rest) == RaceRun(RaceNext(r, step), rest)
  {
    RaceNextKeeps(r, step);
    assert ([step] + rest)[1..] == rest;
  }

  /** n writer micro-steps in a row. */
  function Writing(r: Race, n: nat): Race
    requires RaceInv(r)
    decreases n
  {
    if n == 0 then r
    else
      RaceNextKeeps(r, Written);
      Writing(RaceNext(r, Written), n - 1)
  }

  lemma {:induction false} RunWriting(r: Race, n: nat, rest: seq<RaceStep>)
    requires RaceInv(r)
    ensures RaceInv(Writing(r, n))
    ensures RaceRun(r, seq(n, _ => Written) + rest) == RaceRun(Writing(r, n), rest)
    decreases n
  {
    var steps := seq(n, _ => Written) + rest;
    if n == 0 {
      assert steps == rest;
    } else {
      RunCons(r, Written, seq(n - 1, _ => Written) + rest);
      assert steps == [Written] + (seq(n - 1, _ => Written) + rest);
      RunWriting(RaceNext(r, Written), n - 1, rest);
    }
  }

  /** The writer's eleven micro-steps for a one-byte bitmap when no line holds the slot. */
  lemma ElevenWrites(r: Race, rows: Bitmap)
    requires RaceInv(r) && r.st.writer == Copying(0, rows, 0) && |rows| == 1 == |Hidden(r.st, 0)|
    requires forall i :: 0 <= i < 2 * SETS ==> r.st.tags[i] == EMPTY
    ensures var w := Writing(r, 11);
            && RaceShape(w) && w.fill == r.fill && w.st.writer == Idle && w.st.gen == r.st.gen
            && w.st.lines == r.st.lines && w.st.tags == r.st.tags
            && Shown(w.st, 0) == rows && Hidden(w.st, 0) == Shown(r.st, 0)
  {
    hide SetOf;
    RunWriting(r, 11, []);
    var a := RaceNext(r, Written);
    RaceNextKeeps(r, Written);
    assert Hidden(a.st, 0) == rows;
    var b := RaceNext(a, Written);
    RaceNextKeeps(a, Written);
    assert b.st.writer == Dropping(0, rows, FIRST_SWEEP);
    var c := FourTests(b, rows);
    var d := RaceNext(c, Written);
    RaceNextKeeps(c, Written);
    assert d.st.writer == Cleaning(0, rows, FIRST_SWEEP);
    var e := FourTests(d, rows);
    assert Writing(d, 4) == e && Writing(c, 5) == e;
    WritingSplit(b, 4, 5);
    assert Writing(r, 11) == Writing(a, 10) == Writing(b, 9);
  }

  lemma {:induction false} WritingSplit(r: Race, m: nat, n: nat)
    requires RaceInv(r)
    ensures RaceInv(Writing(r, m)) && Writing(r, m + n) == Writing(Writing(r, m), n)
    decreases m
  {
    if m > 0 {
      RaceNextKeeps(r, Written);
      WritingSplit(RaceNext(r, Written), m - 1, n);
    }
  }

  /** A sweep over an empty cache: four tests, no clears. */
  lemma FourTests(r: Race, rows: Bitmap) returns (after: Race)
    requires RaceInv(r)
    requires r.st.writer == Dropping(0, rows, FIRST_SWEEP) || r.st.writer == Cleaning(0, rows, FIRST_SWEEP)
    requires forall i :: 0 <= i < 2 * SETS ==> r.st.tags[i] == EMPTY
    ensures RaceInv(after) && after == Writing(r, 4)
    ensures after == r.(st := r.st.(writer := if r.st.writer.Dropping? then Flipping(0, rows) else Idle))
  {
    hide SetOf;
    var a := RaceNext(r, Written);
    RaceNextKeeps(r, Written);
    var b := RaceNext(a, Written);
    RaceNextKeeps(a, Written);
    var c := RaceNext(b, Written);
    RaceNextKeeps(b, Written);
    after := RaceNext(c, Written);
    RaceNextKeeps(c, Written);
    assert Writing(c, 1) == after && Writing(b, 2) == after && Writing(a, 3) == after;
  }

  const OLD: Bitmap := [0]
  const NEW: Bitmap := [1]
  const STALE_KEY: Key := 0xE000

  /** The call bumps, then the fill starts, chooses and copies. */
  lemma CopiedBeforeFlip(start: Race, rest: seq<RaceStep>) returns (d: Race)
    requires start == Race(Cold(seq(2 * SPRITE_COUNT, _ => OLD), seq(SPRITE_COUNT, _ => false),
             seq(SPRITE_COUNT, _ => 0)), NoFill)
    ensures RaceInv(start) && RaceInv(d)
    ensures RaceRun(start, [SetCalled(0, NEW)] + ([Start(STALE_KEY)] + ([Choose] + ([Copy] + rest)))) ==
            RaceRun(d, rest)
    ensures d.fill == Reading(STALE_KEY, 0, 1, 0, false, OLD, OLD) && d.st.writer == Copying(0, NEW, 0)
    ensures d.st.tags == start.st.tags && Shown(d.st, 0) == OLD && Hidden(d.st, 0) == OLD
  {
    hide SetOf, Advance;
    var a := RaceNext(start, SetCalled(0, NEW));
    RunCons(start, SetCalled(0, NEW), [Start(STALE_KEY)] + ([Choose] + ([Copy] + rest)));
    var b := RaceNext(a, Start(STALE_KEY));
    RunCons(a, Start(STALE_KEY), [Choose] + ([Copy] + rest));
    assert b.fill == Started(STALE_KEY, 0, 1, 0);
    var c := RaceNext(b, Choose);
    RunCons(b, Choose, [Copy] + rest);
    assert c.fill == Reading(STALE_KEY, 0, 1, 0, false, [], OLD);
    d := RaceNext(c, Copy);
    RunCons(c, Copy, rest);
  }

  /** Where the one-core guarantee ends. A fill that reads the generation after the
      bump but copies before the flip passes the check, and can store its tag after
      the cleaning sweep: the call has returned, and the line shows the old bitmap. */
  lemma StaleAcrossCores() returns (start: Race, steps: seq<RaceStep>)
    ensures start.st == Cold(seq(2 * SPRITE_COUNT, _ => OLD), seq(SPRITE_COUNT, _ => false), seq(SPRITE_COUNT, _ => 0))
    ensures start.fill == NoFill && RaceInv(start)
    ensures var now := RaceRun(start, steps);
            && RaceShape(now) && now.st.writer == Idle && now.fill == NoFill
            && Shown(now.st, 0) == NEW
            && now.st.tags[2 * SetOf(STALE_KEY)] == STALE_KEY && now.st.lines[2 * SetOf(STALE_KEY)] == OLD
  {
    hide SetOf, Advance;
    start := Race(Cold(seq(2 * SPRITE_COUNT, _ => OLD), seq(SPRITE_COUNT, _ => false), seq(SPRITE_COUNT, _ => 0)),
        NoFill);
    var last := [Check] + ([Store] + []);
    var rest := seq(11, _ => Written) + last;
    steps := [SetCalled(0, NEW)] + ([Start(STALE_KEY)] + ([Choose] + ([Copy] + rest)));
    var d := CopiedBeforeFlip(start, rest);
    RunWriting(d, 11, last);
    ElevenWrites(d, NEW);
    CheckedAndStored(Writing(d, 11));
  }

  /** The fill's copy passes the check, and its tag is stored. */
  lemma CheckedAndStored(e: Race)
    requires RaceInv(e) && e.fill == Reading(STALE_KEY, 0, 1, 0, false, OLD, OLD) && e.st.gen[0] == 1
    requires |Source(e)| == 1
    ensures var now := RaceRun(e, [Check] + ([Store] + []));
            && RaceShape(now) && now.st.writer == e.st.writer && now.fill == NoFill
            && now.st.rows == e.st.rows && now.st.active == e.st.active && now.st.lines == e.st.lines
            && now.st.tags[2 * SetOf(STALE_KEY)] == STALE_KEY && e.st.lines[2 * SetOf(STALE_KEY)] == OLD
  {
    hide SetOf, Advance;
    RunCons(e, Check, [Store] + []);
    var f := RaceNext(e, Check);
    assert f.fill == Checked(STALE_KEY, 0, 0, true, OLD);
    RunCons(f, Store, []);
  }
}
