/** What the two-core race can leave in the cache, exactly. SpriteRace with a history of
    each line's last fill: whether the slot flipped after the fill chose its buffer, and
    whether the cleaning test of the line's way still lay ahead when its tag was stored. */
module SpriteStale {
  import opened FontTypes
  import opened GlyphCache
  import opened SpriteProtocol
  import opened SpriteRace

  /** The fill that last stored a line. `before`: it chose its buffer before the slot's
      latest flip. `late`: it stored after that flip's test of its way. `whole`: no bump
      fell into it. `image`: the bitmap the slot showed when it chose. */
  datatype Log = Log(before: bool, late: bool, whole: bool, image: Bitmap)

  datatype Watch = Watch(r: Race, before: bool, logs: seq<Log>)

  predicate TaggedFor(st: State, i: nat, slot: nat)
    requires Shape(st) && i < 2 * SETS
  {
    0 <= st.tags[i] < 0x2_0000 && IsSprite(st.tags[i]) && SlotOf(st.tags[i]) == slot
  }

  /** Does this step flip the slot? */
  predicate Flips(r: Race, step: RaceStep, slot: nat)
    requires RaceShape(r)
  {
    step.Written? && r.st.writer.Flipping? && r.st.writer.slot == slot
  }

  function FillBefore(w: Watch, step: RaceStep): bool
    requires RaceShape(w.r)
  {
    if step.Choose? && w.r.fill.Started? then false
    else w.before || (!w.r.fill.NoFill? && Flips(w.r, step, SlotOf(w.r.fill.key)))
  }

  function LogNext(w: Watch, step: RaceStep, i: nat): Log
    requires RaceShape(w.r) && |w.logs| == 2 * SETS && i < 2 * SETS
  {
    var r := w.r;
    if step.Store? && r.fill.Checked? && Line(r.fill) == i then
      Log(w.before, !Ahead(r.st, i, r.fill.key), r.fill.since == 0, r.fill.image)
    else if step.Written? && r.st.writer.Flipping? && TaggedFor(r.st, i, r.st.writer.slot) then
      w.logs[i].(before := true, late := false)
    else w.logs[i]
  }

  function WatchNext(w: Watch, step: RaceStep): Watch
    requires RaceShape(w.r) && |w.logs| == 2 * SETS
  {
    Watch(RaceNext(w.r, step), FillBefore(w, step), seq(2 * SETS, i requires 0 <= i < 2 * SETS => LogNext(w, step, i)))
  }

  // ------------------------------------------------------------- invariant

  /** A fill on its way shows what the slot shows unless the slot has flipped since. */
  predicate FillOk(w: Watch)
    requires RaceShape(w.r)
  {
    w.r.fill.Reading? || w.r.fill.Checked? ==> w.before || w.r.fill.image == Shown(w.r.st, SlotOf(w.r.fill.key))
  }

  predicate BeingFilled(r: Race, i: nat)
    requires RaceShape(r)
  {
    (r.fill.Reading? || r.fill.Checked?) && Line(r.fill) == i
  }

  /** A tagged line shows the bitmap its fill chose, which is the current one unless the
      slot flipped in between; and then no test of its way lies behind it. */
  predicate LogOk(w: Watch, i: nat)
    requires RaceShape(w.r) && |w.logs| == 2 * SETS && i < 2 * SETS
  {
    var st, log := w.r.st, w.logs[i];
    st.tags[i] != EMPTY && !BeingFilled(w.r, i) ==>
      && 0 <= st.tags[i] < 0x2_0000 && IsSprite(st.tags[i]) && SetOf(st.tags[i]) == i / 2
      && (log.whole ==> st.lines[i] == log.image)
      && (log.whole && !log.before ==> log.image == Shown(st, SlotOf(st.tags[i])))
      && (log.before ==> log.late || Ahead(st, i, st.tags[i]))
  }

  /** Tags under a fill are still tags of their own set. */
  predicate TagOk(st: State, i: nat)
    requires Shape(st) && i < 2 * SETS
  {
    st.tags[i] != EMPTY ==> 0 <= st.tags[i] < 0x2_0000 && IsSprite(st.tags[i]) && SetOf(st.tags[i]) == i / 2
  }

  ghost predicate WatchInv(w: Watch) {
    && RaceInv(w.r) && |w.logs| == 2 * SETS && FillOk(w)
    && (forall i :: 0 <= i < 2 * SETS ==> LogOk(w, i) && TagOk(w.r.st, i))
  }

  lemma LineIsInItsSet(f: Fill)
    requires !f.NoFill? && f.way < 2
    ensures Line(f) / 2 == SetOf(f.key)
  {
    hide SetOf;
  }

  lemma FillKept(w: Watch, step: RaceStep)
    requires WatchInv(w)
    ensures RaceShape(WatchNext(w, step).r) && FillOk(WatchNext(w, step))
  {
    hide SetOf, IsSprite, LogOk, TagOk, LogNext;
    RaceNextKeeps(w.r, step);
  }

  /** Tags change by a store, to the fill's key, or by being cleared. */
  lemma TagKept(w: Watch, step: RaceStep, i: nat)
    requires WatchInv(w) && i < 2 * SETS
    ensures RaceShape(RaceNext(w.r, step)) && TagOk(RaceNext(w.r, step).st, i)
  {
    hide SetOf, IsSprite, LogOk, FillOk;
    RaceNextKeeps(w.r, step);
    assert TagOk(w.r.st, i);
    if step.Store? && w.r.fill.Checked? {
      LineIsInItsSet(w.r.fill);
    }
  }

  lemma LogKept(w: Watch, step: RaceStep, i: nat)
    requires WatchInv(w) && i < 2 * SETS
    ensures RaceShape(WatchNext(w, step).r) && LogOk(WatchNext(w, step), i)
  {
    RaceNextKeeps(w.r, step);
    TagKept(w, step, i);
    assert LogOk(w, i) && TagOk(w.r.st, i);
    match step {
      case Store => StoreLogs(w, i);
      case Written => WriteLogs(w, i);
      case _ => OtherLogs(w, step, i);
    }
  }

  lemma OtherLogs(w: Watch, step: RaceStep, i: nat)
    requires WatchInv(w) && i < 2 * SETS && !step.Store? && !step.Written?
    ensures RaceShape(WatchNext(w, step).r) && LogOk(WatchNext(w, step), i)
  {
    hide SetOf, IsSprite;
    RaceNextKeeps(w.r, step);
    assert LogOk(w, i);
  }

  lemma StoreLogs(w: Watch, i: nat)
    requires WatchInv(w) && i < 2 * SETS
    ensures RaceShape(WatchNext(w, Store).r) && LogOk(WatchNext(w, Store), i)
  {
    hide SetOf, IsSprite;
    RaceNextKeeps(w.r, Store);
    assert LogOk(w, i);
    if w.r.fill.Checked? {
      LineIsInItsSet(w.r.fill);
    }
  }

  lemma WriteLogs(w: Watch, i: nat)
    requires WatchInv(w) && i < 2 * SETS
    ensures RaceShape(WatchNext(w, Written).r) && LogOk(WatchNext(w, Written), i)
  {
    hide IsSprite;
    RaceNextKeeps(w.r, Written);
    assert LogOk(w, i);
    if w.r.st.writer.Flipping? {
      FlipLogs(w, i);
    } else {
      SweepLogs(w, i);
    }
  }

  /** A flip makes every line of the slot old, with its cleaning test ahead. */
  lemma FlipLogs(w: Watch, i: nat)
    requires WatchInv(w) && i < 2 * SETS && w.r.st.writer.Flipping?
    ensures RaceShape(WatchNext(w, Written).r) && LogOk(WatchNext(w, Written), i)
  {
    hide SetOf;
    RaceNextKeeps(w.r, Written);
    assert LogOk(w, i);
  }

  /** Any other write moves no bitmap shown; a cleaning test that passes a line of the
      slot has cleared it. */
  lemma SweepLogs(w: Watch, i: nat)
    requires WatchInv(w) && i < 2 * SETS && !w.r.st.writer.Flipping?
    ensures RaceShape(WatchNext(w, Written).r) && LogOk(WatchNext(w, Written), i)
  {
    hide IsSprite, FillOk;
    RaceNextKeeps(w.r, Written);
    assert LogOk(w, i);
  }

  lemma WatchNextKeeps(w: Watch, step: RaceStep)
    requires WatchInv(w)
    ensures WatchInv(WatchNext(w, step))
  {
    hide LogOk, TagOk, FillOk, RaceNext, LogNext;
    RaceNextKeeps(w.r, step);
    FillKept(w, step);
    forall i | 0 <= i < 2 * SETS ensures LogOk(WatchNext(w, step), i) && TagOk(WatchNext(w, step).r.st, i) {
      LogKept(w, step, i);
      TagKept(w, step, i);
    }
  }

  // ------------------------------------------------------------------ runs

  ghost function WatchRun(w: Watch, steps: seq<RaceStep>): (end: Watch)
    requires WatchInv(w)
    ensures WatchInv(end)
    decreases |steps|
  {
    if steps == [] then w
    else
      WatchNextKeeps(w, steps[0]);
      WatchRun(WatchNext(w, steps[0]), steps[1..])
  }

  /** The histories only watch: the race under them is SpriteRace's. */
  lemma {:induction false} RunKeeps(w: Watch, steps: seq<RaceStep>)
    requires WatchInv(w)
    ensures RaceInv(w.r) && WatchRun(w, steps).r == RaceRun(w.r, steps)
    decreases |steps|
  {
    if steps != [] {
      WatchNextKeeps(w, steps[0]);
      RunKeeps(WatchNext(w, steps[0]), steps[1..]);
    }
  }

  function Start0(rows: seq<Bitmap>, active: seq<bool>, gen: seq<nat>): Watch {
    Watch(Race(Cold(rows, active, gen), NoFill), false, seq(2 * SETS, _ => Log(false, false, false, [])))
  }

  /** Over every interleaving from an empty cache, with any number of calls and fills:
      once no call is at work on a slot, a line tagged for it whose fill no bump fell into
      shows something other than the current bitmap exactly when that fill chose its buffer
      before the slot's latest flip, stored its tag after that flip's cleaning test of its
      way, and chose a different bitmap. What it then shows is that bitmap, whole. */
  lemma ExactlyStale(rows: seq<Bitmap>, active: seq<bool>, gen: seq<nat>, steps: seq<RaceStep>, i: nat)
    requires |rows| == 2 * SPRITE_COUNT && |active| == |gen| == SPRITE_COUNT
    requires forall s :: 0 <= s < SPRITE_COUNT ==> gen[s] < 256
    requires i < 2 * SETS
    ensures WatchInv(Start0(rows, active, gen))
    ensures var w := WatchRun(Start0(rows, active, gen), steps);
            var st, log := w.r.st, w.logs[i];
            st.tags[i] != EMPTY && !BeingFilled(w.r, i) && log.whole ==>
              && 0 <= st.tags[i] < 0x2_0000 && IsSprite(st.tags[i])
              && var slot := SlotOf(st.tags[i]);
                 st.writer == Idle || st.writer.slot != slot ==>
                   && st.lines[i] == log.image
                   && (st.lines[i] != Shown(st, slot) <==> log.before && log.late && log.image != Shown(st, slot))
  {
    var start := Start0(rows, active, gen);
    RunKeeps(start, steps);
    assert LogOk(WatchRun(start, steps), i);
  }
}
