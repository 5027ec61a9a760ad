/** font_sprite_set of components/font/font_renderer.c while the glyph cache is in use.

    The writer runs as micro-steps: the generation bump, each copied byte, each tag
    test, each tag clear, the flip. The display interrupt runs a whole
    font_decode_glyph between any two of them, because it is brought up on the core
    the shell task is pinned to. Memory is sequentially consistent. */
module SpriteProtocol {
  import opened FontTypes
  import opened GlyphCache

  /** A decoded glyph as it lies in memory. */
  type Bitmap = seq<Byte>

  // ----------------------------------------------------------------- state

  /** Position of a tag sweep: which variant's key, which way of its set, and whether
      the tag there was just seen to match. */
  datatype Sweep = Sweep(bold: bool, way: nat, matched: bool)

  datatype Writer =
    | Idle
    | Copying(slot: nat, rows: Bitmap, done: nat)
    | Dropping(slot: nat, rows: Bitmap, sweep: Sweep)    // before the flip
    | Flipping(slot: nat, rows: Bitmap)
    | Cleaning(slot: nat, rows: Bitmap, sweep: Sweep)    // after the flip

  datatype State = State(
    tags: seq<int>, victims: seq<bool>, lines: seq<Bitmap>,
    rows: seq<Bitmap>, active: seq<bool>, gen: seq<nat>,
    writer: Writer)

  /** What the font draws for keys that are not sprites. */
  type Glyphs = Key -> Bitmap

  predicate Shape(st: State) {
    && |st.tags| == |st.lines| == 2 * SETS && |st.victims| == SETS
    && |st.rows| == 2 * SPRITE_COUNT && |st.active| == |st.gen| == SPRITE_COUNT
  }

  /** The bitmap a slot shows, and the one being prepared. */
  function Shown(st: State, slot: nat): Bitmap
    requires Shape(st) && slot < SPRITE_COUNT
  {
    st.rows[BufferIndex(slot, st.active[slot])]
  }

  function Hidden(st: State, slot: nat): Bitmap
    requires Shape(st) && slot < SPRITE_COUNT
  {
    st.rows[BufferIndex(slot, !st.active[slot])]
  }

  function Uncached(g: Glyphs, st: State, k: Key): Bitmap
    requires Shape(st)
  {
    if IsSprite(k) then Shown(st, SlotOf(k)) else g(k)
  }

  function WaysAt(st: State, b: nat): Ways
    requires Shape(st) && b < SETS
  {
    Ways(st.tags[2 * b], st.tags[2 * b + 1], st.victims[b])
  }

  // ----------------------------------------------------------------- steps

  /** font_decode_glyph run to completion: the state after it and the cell returned.
      Nothing moves the generation meanwhile, so a fill always publishes. */
  function Lookup(g: Glyphs, st: State, k: Key): (r: (State, Bitmap))
    requires Shape(st)
    ensures Shape(r.0) && r.0.writer == st.writer && r.0.rows == st.rows && r.0.active == st.active && r.0.gen == st.gen
  {
    var b := SetOf(k);
    var w := WaysAt(st, b);
    var i := 2 * b + w.WayFor(k);
    if w.Holds(k) then (st, st.lines[i])
    else
      var cell := Uncached(g, st, k);
      (st.(tags := st.tags[i := k], lines := st.lines[i := cell], victims := st.victims[b := w.Access(k).victim]), cell)
  }

  /** A lookup leaves its key resident, in the way the replacement policy names, with the
      bitmap it returned; every other set and line stays. */
  lemma LookupFills(g: Glyphs, st: State, k: Key)
    requires Shape(st)
    ensures var (after, cell), b := Lookup(g, st, k), SetOf(k);
            var i := 2 * b + WaysAt(st, b).WayFor(k);
            && WaysAt(after, b) == WaysAt(st, b).Access(k)
            && after.tags[i] == k && after.lines[i] == cell
            && (WaysAt(st, b).Holds(k) ==> cell == st.lines[i])
            && (!WaysAt(st, b).Holds(k) ==> cell == Uncached(g, st, k))
            && (forall s :: 0 <= s < SETS && s != b ==> WaysAt(after, s) == WaysAt(st, s))
            && (forall j :: 0 <= j < 2 * SETS && j != i ==> after.lines[j] == st.lines[j])
  {
    hide SetOf, Uncached;
  }

  /** The tag a sweep looks at. */
  function SweepKey(slot: nat, s: Sweep): Key
    requires slot < SPRITE_COUNT
  {
    KeyOf(SPRITE_BASE + slot, s.bold)
  }

  function SweepIndex(slot: nat, s: Sweep): (i: nat)
    requires slot < SPRITE_COUNT && s.way < 2
    ensures i < 2 * SETS
  {
    2 * SetOf(SweepKey(slot, s)) + s.way
  }

  /** Ways in order, regular variant first. None after the last. */
  function NextSweep(s: Sweep): Option<Sweep> {
    if s.way == 0 then Some(Sweep(s.bold, 1, false))
    else if !s.bold then Some(Sweep(true, 0, false))
    else None
  }

  const FIRST_SWEEP := Sweep(false, 0, false)

  /** One sweep micro-step: test the tag, or clear it after a match. */
  function SweepStep(st: State, slot: nat, s: Sweep): (State, Option<Sweep>)
    requires Shape(st) && slot < SPRITE_COUNT && s.way < 2
  {
    var i := SweepIndex(slot, s);
    if s.matched then (st.(tags := st.tags[i := EMPTY]), NextSweep(s))
    else if st.tags[i] == SweepKey(slot, s) then (st, Some(s.(matched := true)))
    else (st, NextSweep(s))
  }

  predicate WriterShape(st: State) {
    match st.writer
    case Idle => true
    case Copying(slot, rows, done) => slot < SPRITE_COUNT && done <= |rows|
    case Dropping(slot, _, s) => slot < SPRITE_COUNT && s.way < 2
    case Flipping(slot, _) => slot < SPRITE_COUNT
    case Cleaning(slot, _, s) => slot < SPRITE_COUNT && s.way < 2
  }

  /** font_sprite_set is called: the generation is bumped first. Out-of-range slots
      are ignored, and one writer runs at a time. */
  function Begin(st: State, slot: nat, rows: Bitmap): State
    requires Shape(st)
  {
    if st.writer != Idle || slot >= SPRITE_COUNT || |rows| != |Hidden(st, slot)| then st
    else st.(gen := st.gen[slot := (st.gen[slot] + 1) % 256], writer := Copying(slot, rows, 0))
  }

  /** The writer's next micro-step. */
  function Advance(st: State): State
    requires Shape(st) && WriterShape(st)
  {
    match st.writer
    case Idle => st
    case Copying(slot, rows, done) =>
      var h := BufferIndex(slot, !st.active[slot]);
      if done < |rows| && done < |st.rows[h]| then
        st.(rows := st.rows[h := st.rows[h][done := rows[done]]], writer := Copying(slot, rows, done + 1))
      else st.(writer := Dropping(slot, rows, FIRST_SWEEP))
    case Dropping(slot, rows, s) =>
      var (next, more) := SweepStep(st, slot, s);
      next.(writer := if more.Some? then Dropping(slot, rows, more.value) else Flipping(slot, rows))
    case Flipping(slot, rows) =>
      st.(active := st.active[slot := !st.active[slot]], writer := Cleaning(slot, rows, FIRST_SWEEP))
    case Cleaning(slot, rows, s) =>
      var (next, more) := SweepStep(st, slot, s);
      next.(writer := if more.Some? then Cleaning(slot, rows, more.value) else Idle)
  }

  datatype Step = Call(slot: nat, rows: Bitmap) | Write | Interrupt(key: Key)

  function Next(g: Glyphs, st: State, step: Step): State
    requires Shape(st) && WriterShape(st)
  {
    match step
    case Call(slot, rows) => Begin(st, slot, rows)
    case Write => Advance(st)
    case Interrupt(k) => Lookup(g, st, k).0
  }

  // ------------------------------------------------------------- invariant

  /** The prepared bitmap so far. Before the flip it is in the hidden buffer; after,
      it is the one shown. */
  predicate Prepared(st: State)
    requires Shape(st) && WriterShape(st)
  {
    match st.writer
    case Idle => true
    case Copying(slot, rows, done) => |Hidden(st, slot)| == |rows| && Hidden(st, slot)[..done] == rows[..done]
    case Dropping(slot, rows, _) => Hidden(st, slot) == rows
    case Flipping(slot, rows) => Hidden(st, slot) == rows
    case Cleaning(slot, rows, _) => Shown(st, slot) == rows
  }

  /** Has the cleaning sweep still to pass line i for key k? */
  predicate Ahead(st: State, i: nat, k: Key)
    requires Shape(st) && WriterShape(st)
  {
    && st.writer.Cleaning? && IsSprite(k) && SlotOf(k) == st.writer.slot
    && ((BoldOf(k) && !st.writer.sweep.bold) || (BoldOf(k) == st.writer.sweep.bold && st.writer.sweep.way <= i % 2))
  }

  /** A tagged line sits in its own set and shows what a decode would give now, or,
      where the sweep has yet to pass, the complete bitmap from before the flip. */
  predicate LineOk(g: Glyphs, st: State, i: nat)
    requires Shape(st) && WriterShape(st) && i < 2 * SETS
  {
    st.tags[i] != EMPTY ==>
      && 0 <= st.tags[i] < 0x2_0000 && SetOf(st.tags[i]) == i / 2
      && (st.lines[i] == Uncached(g, st, st.tags[i]) ||
          (Ahead(st, i, st.tags[i]) && st.lines[i] == Hidden(st, SlotOf(st.tags[i]))))
  }

  ghost predicate Inv(g: Glyphs, st: State) {
    && Shape(st) && WriterShape(st) && Prepared(st)
    && (forall i :: 0 <= i < 2 * SETS ==> LineOk(g, st, i))
    && (forall b :: 0 <= b < SETS ==> WaysAt(st, b).Distinct())
  }

  lemma LookupKeepsInv(g: Glyphs, st: State, k: Key)
    requires Inv(g, st)
    ensures Inv(g, Lookup(g, st, k).0)
  {
    hide SetOf, IsSprite;
    var st' := Lookup(g, st, k).0;
    forall i | 0 <= i < 2 * SETS ensures LineOk(g, st', i) {
      assert LineOk(g, st, i);
    }
    forall b | 0 <= b < SETS ensures WaysAt(st', b).Distinct() {
      assert WaysAt(st, b).Distinct();
    }
  }

  lemma BeginKeepsInv(g: Glyphs, st: State, slot: nat, rows: Bitmap)
    requires Inv(g, st)
    ensures Inv(g, Begin(st, slot, rows))
  {
    hide SetOf, IsSprite;
    var st' := Begin(st, slot, rows);
    forall i | 0 <= i < 2 * SETS ensures LineOk(g, st', i) {
      assert LineOk(g, st, i);
    }
    forall b | 0 <= b < SETS ensures WaysAt(st', b).Distinct() {
      assert WaysAt(st, b).Distinct();
    }
  }

  /** A sweep micro-step keeps every other line, and empties or leaves its own. */
  lemma SweepKeepsLines(g: Glyphs, st: State, slot: nat, s: Sweep, i: nat)
    requires Shape(st) && slot < SPRITE_COUNT && s.way < 2 && i < 2 * SETS
    ensures var (next, _) := SweepStep(st, slot, s);
            && Shape(next) && next.lines == st.lines && next.rows == st.rows && next.active == st.active
            && next.victims == st.victims && next.writer == st.writer
            && (next.tags[i] == st.tags[i] || next.tags[i] == EMPTY)
  {
  }

  lemma CopyKeepsInv(g: Glyphs, st: State)
    requires Inv(g, st) && st.writer.Copying?
    ensures Inv(g, Advance(st))
  {
    hide SetOf;
    var st' := Advance(st);
    forall i | 0 <= i < 2 * SETS ensures LineOk(g, st', i) {
      assert LineOk(g, st, i);
    }
    forall b | 0 <= b < SETS ensures WaysAt(st', b).Distinct() {
      assert WaysAt(st, b).Distinct();
    }
  }

  lemma DropKeepsInv(g: Glyphs, st: State)
    requires Inv(g, st) && st.writer.Dropping?
    ensures Inv(g, Advance(st))
  {
    hide SetOf, IsSprite;
    var st' := Advance(st);
    forall i | 0 <= i < 2 * SETS ensures LineOk(g, st', i) {
      assert LineOk(g, st, i);
      SweepKeepsLines(g, st, st.writer.slot, st.writer.sweep, i);
    }
    forall b | 0 <= b < SETS ensures WaysAt(st', b).Distinct() {
      assert WaysAt(st, b).Distinct();
    }
  }

  /** At the flip every line of the slot shows what is about to be hidden, and the
      whole cleaning sweep is still ahead of it. */
  lemma FlipKeepsInv(g: Glyphs, st: State)
    requires Inv(g, st) && st.writer.Flipping?
    ensures Inv(g, Advance(st))
  {
    hide SetOf;
    var st' := Advance(st);
    forall i | 0 <= i < 2 * SETS ensures LineOk(g, st', i) {
      assert LineOk(g, st, i);
    }
    forall b | 0 <= b < SETS ensures WaysAt(st', b).Distinct() {
      assert WaysAt(st, b).Distinct();
    }
  }

  /** The cleaning sweep passes a line of the slot only when it is current or empty. */
  lemma CleanKeepsLine(g: Glyphs, st: State, i: nat)
    requires Inv(g, st) && st.writer.Cleaning? && i < 2 * SETS
    ensures Shape(Advance(st)) && WriterShape(Advance(st)) && LineOk(g, Advance(st), i)
  {
    hide Prepared, IsSprite;
    assert LineOk(g, st, i);
  }

  lemma CleanKeepsInv(g: Glyphs, st: State)
    requires Inv(g, st) && st.writer.Cleaning?
    ensures Inv(g, Advance(st))
  {
    hide SetOf, LineOk, IsSprite;
    var st' := Advance(st);
    forall i | 0 <= i < 2 * SETS ensures LineOk(g, st', i) {
      CleanKeepsLine(g, st, i);
    }
    forall b | 0 <= b < SETS ensures WaysAt(st', b).Distinct() {
      assert WaysAt(st, b).Distinct();
    }
  }

  lemma NextKeepsInv(g: Glyphs, st: State, step: Step)
    requires Inv(g, st)
    ensures Inv(g, Next(g, st, step))
  {
    match step {
      case Call(slot, rows) => BeginKeepsInv(g, st, slot, rows);
      case Interrupt(k) => LookupKeepsInv(g, st, k);
      case Write =>
        match st.writer {
          case Idle =>
          case Copying(_, _, _) => CopyKeepsInv(g, st);
          case Dropping(_, _, _) => DropKeepsInv(g, st);
          case Flipping(_, _) => FlipKeepsInv(g, st);
          case Cleaning(_, _, _) => CleanKeepsInv(g, st);
        }
    }
  }

  // ------------------------------------------------------------------ runs

  ghost function Run(g: Glyphs, st: State, steps: seq<Step>): State
    requires Inv(g, st)
    decreases |steps|
  {
    if steps == [] then st
    else
      NextKeepsInv(g, st, steps[0]);
      Run(g, Next(g, st, steps[0]), steps[1..])
  }

  /** In every reachable state each lookup returns a complete bitmap: the current one,
      or, between the flip and the end of the cleaning sweep, for the slot being set,
      the one from before. */
  lemma {:induction false} LookupsAreWhole(g: Glyphs, st: State, steps: seq<Step>, k: Key)
    requires Inv(g, st)
    ensures Inv(g, Run(g, st, steps))
    ensures var now := Run(g, st, steps);
            var cell := Lookup(g, now, k).1;
            || cell == Uncached(g, now, k)
            || (now.writer.Cleaning? && IsSprite(k) && SlotOf(k) == now.writer.slot && cell == Hidden(now, SlotOf(k)))
    decreases |steps|
  {
    if steps == [] {
      var i := 2 * SetOf(k) + WaysAt(st, SetOf(k)).WayFor(k);
      assert LineOk(g, st, i);
    } else {
      NextKeepsInv(g, st, steps[0]);
      LookupsAreWhole(g, Next(g, st, steps[0]), steps[1..], k);
    }
  }

  /** One call on its way: what the slot shows and hides at each stage, other slots
      untouched. */
  ghost predicate Underway(before: State, slot: nat, rows: Bitmap, st: State) {
    && Shape(before) && slot < SPRITE_COUNT && Shape(st)
    && (forall s :: 0 <= s < SPRITE_COUNT && s != slot ==> Shown(st, s) == Shown(before, s))
    && match st.writer
       case Idle => Shown(st, slot) == rows
       case Copying(s, r, _) => s == slot && r == rows && Shown(st, slot) == Shown(before, slot)
       case Dropping(s, r, _) =>
         s == slot && r == rows && Shown(st, slot) == Shown(before, slot) && Hidden(st, slot) == rows
       case Flipping(s, r) =>
         s == slot && r == rows && Shown(st, slot) == Shown(before, slot) && Hidden(st, slot) == rows
       case Cleaning(s, r, _) =>
         s == slot && r == rows && Shown(st, slot) == rows && Hidden(st, slot) == Shown(before, slot)
  }

  predicate NoCalls(steps: seq<Step>) {
    forall i :: 0 <= i < |steps| ==> !steps[i].Call?
  }

  lemma UnderwayNext(g: Glyphs, before: State, slot: nat, rows: Bitmap, st: State, step: Step)
    requires Inv(g, st) && Underway(before, slot, rows, st) && !step.Call?
    ensures Underway(before, slot, rows, Next(g, st, step))
  {
    hide SetOf, Ways.WayFor, Ways.Access, Ways.Holds;
    if step.Write? {
      UnderwayAdvance(g, before, slot, rows, st);
    }
  }

  lemma UnderwayAdvance(g: Glyphs, before: State, slot: nat, rows: Bitmap, st: State)
    requires Inv(g, st) && Underway(before, slot, rows, st)
    ensures Underway(before, slot, rows, Advance(st))
  {
    hide SetOf, LineOk, Ways.Distinct;
    match st.writer {
      case Idle =>
      case Copying(_, _, _) =>
      case Dropping(_, _, s) => SweepKeepsLines(g, st, slot, s, 0);
      case Flipping(_, _) =>
      case Cleaning(_, _, s) => SweepKeepsLines(g, st, slot, s, 0);
    }
  }

  /** Write steps the call still needs, at most. */
  function Remaining(st: State): nat
    requires WriterShape(st)
  {
    match st.writer
    case Idle => 0
    case Copying(_, rows, done) => |rows| - done + 1 + 8 + 1 + 8
    case Dropping(_, _, s) => SweepLeft(s) + 1 + 8
    case Flipping(_, _) => 1 + 8
    case Cleaning(_, _, s) => SweepLeft(s)
  }

  function SweepLeft(s: Sweep): nat
    requires s.way < 2
  {
    2 * ((if s.bold then 0 else 2) + (1 - s.way)) + (if s.matched then 1 else 2)
  }

  /** Write steps it needs at least. */
  function Needed(st: State): nat
    requires WriterShape(st)
  {
    match st.writer
    case Idle => 0
    case Copying(_, rows, done) => |rows| - done + 1 + 4 + 1 + 4
    case Dropping(_, _, s) => WaysLeft(s) + 1 + 4
    case Flipping(_, _) => 1 + 4
    case Cleaning(_, _, s) => WaysLeft(s)
  }

  function WaysLeft(s: Sweep): nat
    requires s.way < 2
  {
    (if s.bold then 0 else 2) + 2 - s.way
  }

  function Writes(steps: seq<Step>): nat
    decreases |steps|
  {
    if steps == [] then 0 else (if steps[0].Write? then 1 else 0) + Writes(steps[1..])
  }

  lemma RemainingNext(g: Glyphs, st: State, step: Step)
    requires Inv(g, st) && !step.Call?
    ensures WriterShape(Next(g, st, step))
    ensures if step.Write? && st.writer != Idle then Remaining(Next(g, st, step)) < Remaining(st)
            else Remaining(Next(g, st, step)) == Remaining(st)
    ensures Needed(Next(g, st, step)) + (if step.Write? then 1 else 0) >= Needed(st)
    ensures Next(g, st, step).gen == st.gen
  {
    hide SetOf, Ways.WayFor, Ways.Access, Ways.Holds;
    NextKeepsInv(g, st, step);
  }

  lemma {:induction false} UnderwayRun(g: Glyphs, before: State, slot: nat, rows: Bitmap, st: State, steps: seq<Step>)
    requires Inv(g, st) && Underway(before, slot, rows, st) && NoCalls(steps)
    ensures Inv(g, Run(g, st, steps)) && Underway(before, slot, rows, Run(g, st, steps))
    ensures Writes(steps) >= Remaining(st) ==> Run(g, st, steps).writer == Idle
    ensures Writes(steps) < Needed(st) ==> Run(g, st, steps).writer != Idle
    ensures Run(g, st, steps).gen == st.gen
    decreases |steps|
  {
    if steps != [] {
      UnderwayNext(g, before, slot, rows, st, steps[0]);
      NextKeepsInv(g, st, steps[0]);
      RemainingNext(g, st, steps[0]);
      UnderwayRun(g, before, slot, rows, Next(g, st, steps[0]), steps[1..]);
    }
  }

  /** Once font_sprite_set has returned, every lookup of the slot, bold or not, gives
      the new bitmap and no line holds anything else; before that a lookup gives the
      whole old or the whole new one, never anything else. The generation has moved by
      one; the call returns after at least |rows| + 10 and at most |rows| + 18 of its own
      micro-steps, whatever the interrupt does. */
  lemma SetTakesEffect(g: Glyphs, before: State, slot: nat, rows: Bitmap, steps: seq<Step>, k: Key)
    requires Inv(g, before) && before.writer == Idle
    requires slot < SPRITE_COUNT && |rows| == |Hidden(before, slot)|
    requires NoCalls(steps) && IsSprite(k) && SlotOf(k) == slot
    ensures Inv(g, Begin(before, slot, rows))
    ensures var now := Run(g, Begin(before, slot, rows), steps);
            && Inv(g, now)
            && (Lookup(g, now, k).1 == rows || (Lookup(g, now, k).1 == Shown(before, slot) && now.writer != Idle))
            && (now.writer == Idle ==> forall i :: 0 <= i < 2 * SETS && now.tags[i] == k ==> now.lines[i] == rows)
    ensures Writes(steps) >= |rows| + 18 ==> Run(g, Begin(before, slot, rows), steps).writer == Idle
    ensures Writes(steps) < |rows| + 10 ==> Run(g, Begin(before, slot, rows), steps).writer != Idle
    ensures Run(g, Begin(before, slot, rows), steps).gen == before.gen[slot := (before.gen[slot] + 1) % 256]
  {
    hide SetOf, Lookup, NoCalls, Writes;
    var st := Begin(before, slot, rows);
    BeginKeepsInv(g, before, slot, rows);
    UnderwayRun(g, before, slot, rows, st, steps);
    var now := Run(g, st, steps);
    LookupsAreWhole(g, now, [], k);
    forall i | 0 <= i < 2 * SETS && now.tags[i] == k && now.writer == Idle ensures now.lines[i] == rows {
      assert LineOk(g, now, i);
    }
  }

  /** gcache_init over any sprite table: nothing cached, nobody writing. */
  function Cold(rows: seq<Bitmap>, active: seq<bool>, gen: seq<nat>): State {
    State(seq(2 * SETS, _ => EMPTY), seq(SETS, _ => false), seq(2 * SETS, _ => []), rows, active, gen, Idle)
  }

  lemma ColdStart(g: Glyphs, rows: seq<Bitmap>, active: seq<bool>, gen: seq<nat>)
    requires |rows| == 2 * SPRITE_COUNT && |active| == |gen| == SPRITE_COUNT
    ensures Inv(g, Cold(rows, active, gen))
  {
  }

  // -------------------------------------------------- a key never goes back

  /** Every line tagged k shows the current bitmap. */
  ghost predicate Fresh(g: Glyphs, st: State, k: Key) {
    Shape(st) && forall i :: 0 <= i < 2 * SETS && st.tags[i] == k ==> st.lines[i] == Uncached(g, st, k)
  }

  lemma FreshNext(g: Glyphs, st: State, k: Key, step: Step)
    requires Inv(g, st) && Fresh(g, st, k)
    requires !step.Call? && !st.writer.Copying? && !st.writer.Dropping? && !st.writer.Flipping?
    ensures Fresh(g, Next(g, st, step), k)
    ensures Shown(Next(g, st, step), if IsSprite(k) then SlotOf(k) else 0) ==
            Shown(st, if IsSprite(k) then SlotOf(k) else 0)
  {
    hide SetOf, IsSprite, Ways.WayFor;
  }

  /** Within one call, once a lookup of a key has given the new bitmap, no later lookup
      of that key gives the old one again. */
  lemma {:induction false} NoFlicker(g: Glyphs, st: State, k: Key, steps: seq<Step>)
    requires Inv(g, st) && (st.writer.Cleaning? || st.writer.Idle?) && NoCalls(steps)
    requires Lookup(g, st, k).1 == Uncached(g, st, k)
    ensures Inv(g, Run(g, st, steps))
    ensures Lookup(g, Run(g, st, steps), k).1 == Uncached(g, st, k)
    decreases |steps|
  {
    ShownOnceIsFresh(g, st, k);
    FreshRun(g, st, k, steps);
  }

  lemma ShownOnceIsFresh(g: Glyphs, st: State, k: Key)
    requires Inv(g, st) && Lookup(g, st, k).1 == Uncached(g, st, k)
    ensures Fresh(g, st, k)
  {
    var b := SetOf(k);
    assert WaysAt(st, b).Distinct();
    forall i | 0 <= i < 2 * SETS && st.tags[i] == k ensures st.lines[i] == Uncached(g, st, k) {
      assert LineOk(g, st, i);
      assert i == 2 * b || i == 2 * b + 1;
    }
  }

  lemma {:induction false} FreshRun(g: Glyphs, st: State, k: Key, steps: seq<Step>)
    requires Inv(g, st) && (st.writer.Cleaning? || st.writer.Idle?) && NoCalls(steps) && Fresh(g, st, k)
    ensures Inv(g, Run(g, st, steps))
    ensures Lookup(g, Run(g, st, steps), k).1 == Uncached(g, st, k)
    decreases |steps|
  {
    if steps != [] {
      FreshNext(g, st, k, steps[0]);
      NextKeepsInv(g, st, steps[0]);
      FreshRun(g, Next(g, st, steps[0]), k, steps[1..]);
    }
  }
}
