/** The effect configuration shared by the shell task and the display interrupt:
    display_fx_set publishes it under a generation counter (components/display/display_fx.c),
    render_fx_snapshot takes a copy once per frame (components/display/render_fx_pass.c).
    Every byte written or read and every bump or test of the counter is a step of its own. */
module Seqlock {
  const FIELDS := 14

  /** The configuration's bytes in declaration order: scanlines, bold_pop, mono, glow,
      glow_frames, glow_strength, wipe, wipe_frames, collapse, collapse_frames,
      static_burst, static_frames, static_lines, wobble. */
  type Config = c: seq<nat> | |c| == 14 witness seq(14, _ => 0)

  // ------------------------------------------------------------- clamping

  /** Each field's range. */
  function Low(i: nat): nat {
    if i == 7 || i == 9 then 4 else if i == 4 || i == 11 || i == 12 then 1 else 0
  }

  function High(i: nat): nat {
    if i == 4 || i == 7 || i == 9 || i == 11 then 120
    else if i == 2 then 2 else if i == 12 then 4 else if i == 13 then 3 else 1
  }

  predicate InRange(c: Config) {
    forall i :: 0 <= i < FIELDS ==> Low(i) <= c[i] <= High(i)
  }

  /** Switches are normalised with !!, the other fields clamped to their range. */
  function Flag(v: nat): nat { if v == 0 then 0 else 1 }

  function ClampByte(v: nat, lo: nat, hi: nat): nat {
    if v < lo then lo else if v > hi then hi else v
  }

  function Clamp(c: Config): Config {
    [Flag(c[0]), Flag(c[1]), ClampByte(c[2], 0, 2), Flag(c[3]), ClampByte(c[4], 1, 120), ClampByte(c[5], 0, 1),
     Flag(c[6]), ClampByte(c[7], 4, 120), Flag(c[8]), ClampByte(c[9], 4, 120), Flag(c[10]),
     ClampByte(c[11], 1, 120), ClampByte(c[12], 1, 4), ClampByte(c[13], 0, 3)]
  }

  lemma FieldIsNearest(c: Config, i: nat)
    requires i < FIELDS
    ensures Clamp(c)[i] == if c[i] < Low(i) then Low(i) else if c[i] > High(i) then High(i) else c[i]
  {
    match i
    case 0 => case 1 => case 2 => case 3 => case 4 => case 5 => case 6 => case 7 =>
    case 8 => case 9 => case 10 => case 11 => case 12 => case _ =>
  }

  /** The clamped configuration is in range, and is the nearest one that is: a field
      already in range keeps its value, the others take the end they overshot. */
  lemma ClampIsNearest(c: Config)
    ensures InRange(Clamp(c))
    ensures forall i :: 0 <= i < FIELDS ==>
              Clamp(c)[i] == if c[i] < Low(i) then Low(i) else if c[i] > High(i) then High(i) else c[i]
    ensures InRange(c) <==> Clamp(c) == c
  {
    hide Clamp;
    forall i | 0 <= i < FIELDS
      ensures Clamp(c)[i] == if c[i] < Low(i) then Low(i) else if c[i] > High(i) then High(i) else c[i]
    {
      FieldIsNearest(c, i);
    }
  }

  // ----------------------------------------------------------------- state

  /** A setter between its two bumps, `at` bytes stored. */
  datatype Writer = Idle | Storing(cfg: Config, at: nat)

  /** A snapshot under way: the counter as it was at the start and the bytes copied. */
  datatype Reader = Waiting | Copying(g1: nat, tmp: seq<nat>)

  /** `gen` never wraps; the program sees it modulo 256. `published` is the history of
      whole configurations, the initial one first. */
  datatype State = State(shared: Config, gen: nat, writer: Writer, reader: Reader, snap: Config, published: seq<Config>)

  datatype Step = Begin(cfg: Config) | StoreByte | Finish | Start | CopyByte | Check

  /** The counter as the program stores it, in a byte. */
  function Seen(gen: nat): nat { gen % 256 }

  function Enabled(s: State, step: Step): bool {
    match step
    case Begin(_) => s.writer.Idle?
    case StoreByte => s.writer.Storing? && s.writer.at < FIELDS
    case Finish => s.writer.Storing? && s.writer.at == FIELDS
    case Start => s.reader.Waiting?
    case CopyByte => s.reader.Copying? && |s.reader.tmp| < FIELDS
    case Check => s.reader.Copying? && |s.reader.tmp| == FIELDS
  }

  function Next(s: State, step: Step): State
    requires Enabled(s, step)
  {
    match step
    case Begin(c) => s.(gen := s.gen + 1, writer := Storing(Clamp(c), 0))
    case StoreByte =>
      s.(shared := s.shared[s.writer.at := s.writer.cfg[s.writer.at]], writer := Storing(s.writer.cfg, s.writer.at + 1))
    case Finish => s.(gen := s.gen + 1, writer := Idle, published := s.published + [s.writer.cfg])
    case Start => s.(reader := Copying(s.gen, []))
    case CopyByte => s.(reader := Copying(s.reader.g1, s.reader.tmp + [s.shared[|s.reader.tmp|]]))
    case Check =>
      if Seen(s.reader.g1) % 2 == 0 && Seen(s.reader.g1) == Seen(s.gen)
      then s.(snap := s.reader.tmp, reader := Waiting)
      else s.(reader := Waiting)
  }

  /** Steps that are not enabled do nothing: every interleaving is a run. */
  function Run(s: State, steps: seq<Step>): State
    decreases |steps|
  {
    if steps == [] then s
    else Run(if Enabled(s, steps[0]) then Next(s, steps[0]) else s, steps[1..])
  }

  /** The counter has come round: it moved since the copy began, by a multiple of 256. */
  predicate Wrapped(s: State) {
    s.reader.Copying? && s.gen > s.reader.g1 && (s.gen - s.reader.g1) % 256 == 0
  }

  /** No snapshot reaches its check while the counter has come round. */
  predicate Timely(s: State, steps: seq<Step>)
    decreases |steps|
  {
    steps != [] ==>
      && !(steps[0].Check? && Enabled(s, Check) && Wrapped(s))
      && Timely(if Enabled(s, steps[0]) then Next(s, steps[0]) else s, steps[1..])
  }

  /** The counter passes through fewer than 256 values during any one snapshot. */
  predicate Prompt(s: State, steps: seq<Step>)
    decreases |steps|
  {
    && (s.reader.Copying? ==> s.gen < s.reader.g1 + 256)
    && (steps != [] ==> Prompt(if Enabled(s, steps[0]) then Next(s, steps[0]) else s, steps[1..]))
  }

  /** Fewer than 128 whole writes during each snapshot are enough. */
  lemma {:induction false} PromptIsTimely(s: State, steps: seq<Step>)
    requires Prompt(s, steps)
    ensures Timely(s, steps)
    decreases |steps|
  {
    if steps != [] {
      PromptIsTimely(if Enabled(s, steps[0]) then Next(s, steps[0]) else s, steps[1..]);
    }
  }

  function Initial(shared: Config, snap: Config): State {
    State(shared, 0, Idle, Waiting, snap, [shared])
  }

  // ------------------------------------------------------------- invariant

  /** Version n was the shared configuration while the counter stood at 2n. */
  predicate WriterInv(s: State) {
    && |s.published| >= 1
    && match s.writer
       case Idle => s.gen == 2 * (|s.published| - 1) && s.shared == s.published[|s.published| - 1]
       case Storing(cfg, at) =>
         s.gen == 2 * |s.published| - 1 && at <= FIELDS && InRange(cfg) && s.shared[..at] == cfg[..at]
  }

  /** A copy begun while no setter was at work, if the counter has not moved since, is a
      prefix of the shared configuration. */
  predicate ReaderInv(s: State) {
    s.reader.Copying? ==>
      && s.reader.g1 <= s.gen && |s.reader.tmp| <= FIELDS
      && (s.reader.g1 == s.gen && s.gen % 2 == 0 ==> s.reader.tmp == s.shared[..|s.reader.tmp|])
  }

  /** All published configurations but the first were clamped. */
  predicate PublishedInv(s: State, snap0: Config) {
    && (forall i :: 0 < i < |s.published| ==> InRange(s.published[i]))
    && (s.snap == snap0 || s.snap in s.published)
  }

  predicate Inv(s: State, snap0: Config) {
    WriterInv(s) && ReaderInv(s) && PublishedInv(s, snap0)
  }

  /** The counter test: the same byte means no bump, or a counter that has come round. */
  lemma SameByte(g1: nat, gen: nat)
    requires g1 <= gen
    ensures Seen(g1) == Seen(gen) <==> (gen - g1) % 256 == 0
    ensures Seen(g1) % 2 == g1 % 2
  {
    assert gen == g1 + (gen - g1);
  }

  /** What a snapshot's test lets through, exactly: a copy begun while no setter was at
      work, with no bump since or a multiple of 256 of them. */
  lemma AcceptsExactly(s: State)
    requires ReaderInv(s) && Enabled(s, Check)
    ensures Next(s, Check) == if s.reader.g1 % 2 == 0 && (s.gen == s.reader.g1 || Wrapped(s))
                              then s.(snap := s.reader.tmp, reader := Waiting) else s.(reader := Waiting)
  {
    SameByte(s.reader.g1, s.gen);
  }

  lemma NextKeepsInv(s: State, step: Step, snap0: Config)
    requires Inv(s, snap0) && Enabled(s, step) && !(step.Check? && Wrapped(s))
    ensures Inv(Next(s, step), snap0)
  {
    hide Clamp, InRange, Seen;
    match step
    case Begin(c) => ClampIsNearest(c);
    case StoreByte => StoreKeepsInv(s, snap0);
    case Finish => FinishKeepsInv(s, snap0);
    case Start =>
    case CopyByte =>
    case Check =>
      AcceptsExactly(s);
      if s.reader.g1 == s.gen && s.gen % 2 == 0 {
        assert s.reader.tmp == s.shared;
        assert s.shared == s.published[|s.published| - 1];
      }
  }

  lemma StoreKeepsInv(s: State, snap0: Config)
    requires Inv(s, snap0) && Enabled(s, StoreByte)
    ensures Inv(Next(s, StoreByte), snap0)
  {
    hide Clamp, InRange;
    var at := s.writer.at;
    var shared := s.shared[at := s.writer.cfg[at]];
    assert shared[..at + 1] == s.shared[..at] + [s.writer.cfg[at]];
    assert s.writer.cfg[..at + 1] == s.writer.cfg[..at] + [s.writer.cfg[at]];
  }

  lemma FinishKeepsInv(s: State, snap0: Config)
    requires Inv(s, snap0) && Enabled(s, Finish)
    ensures Inv(Next(s, Finish), snap0)
  {
    hide Clamp, InRange;
    var n := Next(s, Finish);
    assert s.shared == s.shared[..FIELDS] == s.writer.cfg[..FIELDS] == s.writer.cfg;
    assert forall c :: c in s.published ==> c in n.published;
  }

  lemma {:induction false} RunKeepsInv(s: State, steps: seq<Step>, snap0: Config)
    requires Inv(s, snap0) && Timely(s, steps)
    ensures Inv(Run(s, steps), snap0)
    decreases |steps|
  {
    hide WriterInv, ReaderInv, PublishedInv, Enabled, Next;
    if steps != [] {
      if Enabled(s, steps[0]) {
        NextKeepsInv(s, steps[0], snap0);
        RunKeepsInv(Next(s, steps[0]), steps[1..], snap0);
      } else {
        RunKeepsInv(s, steps[1..], snap0);
      }
    }
  }

  /** Whatever the interleaving, if no test runs on a counter come round, the frame
      snapshot is its initial value, the initial configuration, or one whole clamped
      configuration that a setter published. */
  lemma SnapshotIsWhole(shared: Config, snap: Config, steps: seq<Step>)
    requires Timely(Initial(shared, snap), steps)
    ensures var s := Run(Initial(shared, snap), steps);
            s.snap == snap || s.snap == shared || (s.snap in s.published && InRange(s.snap))
  {
    RunKeepsInv(Initial(shared, snap), steps, snap);
    FirstPublished(Initial(shared, snap), steps);
  }

  lemma {:induction false} FirstPublished(s: State, steps: seq<Step>)
    requires |s.published| >= 1
    ensures |Run(s, steps).published| >= 1 && Run(s, steps).published[0] == s.published[0]
    decreases |steps|
  {
    if steps != [] {
      FirstPublished(if Enabled(s, steps[0]) then Next(s, steps[0]) else s, steps[1..]);
    }
  }

  // ---------------------------------------------------- undisturbed reads

  /** A snapshot taken while the setter rests copies the configuration last published;
      one taken in the middle of a write keeps the previous snapshot. */
  lemma WholeRead(s: State)
    requires WriterInv(s) && s.reader.Waiting?
    ensures Run(s, Frame()) == if s.writer.Idle? then s.(snap := s.published[|s.published| - 1]) else s
  {
    hide WriterInv, Run, Copies, Seen;
    var started := Next(s, Start);
    assert Frame() == [Start] + (Copies(FIELDS) + [Check]);
    FirstStep(s, Start, Copies(FIELDS) + [Check]);
    CopyAll(started, FIELDS, [Check]);
    var copied := started.(reader := Copying(s.gen, s.shared));
    assert [] + s.shared[0..0 + FIELDS] == s.shared;
    LastStep(copied, Check);
    GenParity(s);
  }

  lemma FirstStep(s: State, step: Step, rest: seq<Step>)
    requires Enabled(s, step)
    ensures Run(s, [step] + rest) == Run(Next(s, step), rest)
  {
    assert ([step] + rest)[1..] == rest;
  }

  lemma LastStep(s: State, step: Step)
    requires Enabled(s, step)
    ensures Run(s, [step]) == Next(s, step)
  {
    FirstStep(s, step, []);
    assert [step] + [] == [step];
  }

  lemma GenParity(s: State)
    requires WriterInv(s)
    ensures Seen(s.gen) % 2 == 0 <==> s.writer.Idle?
    ensures s.writer.Idle? ==> s.shared == s.published[|s.published| - 1]
  {
  }

  /** One render_fx_snapshot call, nothing in between. */
  function Frame(): seq<Step> {
    [Start] + Copies(FIELDS) + [Check]
  }

  function Copies(n: nat): (c: seq<Step>)
    ensures |c| == n
  {
    seq(n, _ => CopyByte)
  }

  lemma CopyOneMore(tmp: seq<nat>, shared: Config, k: nat, n: nat)
    requires n > 0 && k + n <= FIELDS
    ensures tmp + [shared[k]] + shared[k + 1..k + 1 + (n - 1)] == tmp + shared[k..k + n]
  {
  }

  lemma {:induction false} CopyAll(s: State, n: nat, rest: seq<Step>)
    requires s.reader.Copying? && |s.reader.tmp| + n <= FIELDS
    ensures var k := |s.reader.tmp|;
            Run(s, Copies(n) + rest) == Run(s.(reader := Copying(s.reader.g1, s.reader.tmp + s.shared[k..k + n])), rest)
    decreases n
  {
    var k := |s.reader.tmp|;
    var all := Copies(n) + rest;
    if n == 0 {
      assert all == rest && s.reader.tmp + s.shared[k..k] == s.reader.tmp;
    } else {
      var next := Next(s, CopyByte);
      assert all[0] == CopyByte && all[1..] == Copies(n - 1) + rest;
      CopyAll(next, n - 1, rest);
      CopyOneMore(s.reader.tmp, s.shared, k, n);
    }
  }

  // ------------------------------------------------- why the bound matters

  /** One whole setter call. */
  function SetCall(c: Config): seq<Step> {
    [Begin(c)] + seq(FIELDS, _ => StoreByte) + [Finish]
  }

  function SetCalls(c: Config, n: nat): seq<Step> {
    if n == 0 then [] else SetCall(c) + SetCalls(c, n - 1)
  }

  lemma Splice(shared: Config, cfg: Config, at: nat, n: nat)
    requires n > 0 && at + n <= FIELDS
    ensures var next := shared[at := cfg[at]];
            next[..at + 1] + cfg[at + 1..at + n] + next[at + n..] == shared[..at] + cfg[at..at + n] + shared[at + n..]
  {
  }

  lemma {:induction false} StoreAll(s: State, n: nat, rest: seq<Step>)
    requires s.writer.Storing? && s.writer.at + n <= FIELDS
    ensures var at := s.writer.at;
            Run(s, seq(n, _ => StoreByte) + rest) ==
            Run(s.(shared := s.shared[..at] + s.writer.cfg[at..at + n] + s.shared[at + n..],
                   writer := Storing(s.writer.cfg, at + n)), rest)
    decreases n
  {
    var at := s.writer.at;
    var all := seq(n, _ => StoreByte) + rest;
    if n == 0 {
      assert all == rest && s.shared[..at] + s.writer.cfg[at..at] + s.shared[at..] == s.shared;
    } else {
      var next := Next(s, StoreByte);
      assert all[0] == StoreByte && all[1..] == seq(n - 1, _ => StoreByte) + rest;
      StoreAll(next, n - 1, rest);
      Splice(s.shared, s.writer.cfg, at, n);
    }
  }

  lemma OneSet(s: State, c: Config, rest: seq<Step>)
    requires s.writer.Idle?
    ensures Run(s, SetCall(c) + rest) ==
            Run(s.(shared := Clamp(c), gen := s.gen + 2, published := s.published + [Clamp(c)]), rest)
  {
    hide Clamp, Run;
    var stores, finish := seq(FIELDS, _ => StoreByte), [Finish] + rest;
    var begun := Next(s, Begin(c));
    assert SetCall(c) + rest == [Begin(c)] + (stores + finish);
    FirstStep(s, Begin(c), stores + finish);
    StoreAll(begun, FIELDS, finish);
    assert s.shared[..0] + Clamp(c)[0..FIELDS] + s.shared[FIELDS..] == Clamp(c);
    FirstStep(begun.(shared := Clamp(c), writer := Storing(Clamp(c), FIELDS)), Finish, rest);
  }

  lemma {:induction false} ManySets(s: State, c: Config, n: nat, rest: seq<Step>) returns (e: State)
    requires s.writer.Idle? && n > 0
    ensures Run(s, SetCalls(c, n) + rest) == Run(e, rest)
    ensures e.writer.Idle? && e.shared == Clamp(c) && e.gen == s.gen + 2 * n && e.reader == s.reader && e.snap == s.snap
    decreases n
  {
    hide Clamp, SetCall;
    var one := s.(shared := Clamp(c), gen := s.gen + 2, published := s.published + [Clamp(c)]);
    OneSet(s, c, SetCalls(c, n - 1) + rest);
    assert SetCalls(c, n) + rest == SetCall(c) + (SetCalls(c, n - 1) + rest);
    if n == 1 {
      assert SetCalls(c, 0) + rest == rest;
      e := one;
    } else {
      e := ManySets(one, c, n - 1, rest);
    }
  }

  /** The runs that defeat the byte counter: the reader copies one field, the setter is
      called a multiple of 128 times, the reader goes on and finds the counter's byte where
      it was. */
  function Wrapping(c: Config, k: nat): seq<Step> {
    [Start, CopyByte] + SetCalls(c, 128 * k) + Copies(FIELDS - 1) + [Check]
  }

  /** Then the snapshot tears: its first field is the old configuration's, the rest the
      new one's. */
  lemma WrapTears(shared: Config, snap: Config, c: Config, k: nat)
    requires k > 0
    ensures Run(Initial(shared, snap), Wrapping(c, k)).snap == [shared[0]] + Clamp(c)[1..]
  {
    hide Clamp, SetCalls, Run, Seen;
    var s := Initial(shared, snap);
    var copies := Copies(FIELDS - 1) + [Check];
    var begun := Next(Next(s, Start), CopyByte);
    var rest := SetCalls(c, 128 * k) + copies;
    assert Wrapping(c, k) == [Start] + ([CopyByte] + rest);
    FirstStep(s, Start, [CopyByte] + rest);
    FirstStep(Next(s, Start), CopyByte, rest);
    assert begun.reader == Copying(0, [shared[0]]);
    var e := ManySets(begun, c, 128 * k, copies);
    assert [shared[0]] + e.shared[1..1 + (FIELDS - 1)] == [shared[0]] + Clamp(c)[1..FIELDS];
    CopyAll(e, FIELDS - 1, [Check]);
    var copied := e.(reader := Copying(0, [shared[0]] + Clamp(c)[1..FIELDS]));
    assert e.gen == 256 * k;
    SameByte(0, 256 * k);
    LastStep(copied, Check);
    assert Clamp(c)[1..FIELDS] == Clamp(c)[1..];
  }

  /** Any other number of writes in between, up to any length of read, is caught. */
  lemma OtherwiseCaught(s: State)
    requires ReaderInv(s) && Enabled(s, Check) && s.gen != s.reader.g1 && !Wrapped(s)
    ensures Next(s, Check).snap == s.snap
  {
    AcceptsExactly(s);
  }
}
