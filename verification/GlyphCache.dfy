/** The decoded-glyph cache of components/font/font_renderer.c: 128 sets of two ways,
    filled on demand, one round-robin victim bit per set. This module has the cache
    as the renderer uses it between sprite updates; SpriteProtocol adds a writer that
    runs while it is in use. */
module GlyphCache {
  import opened FontTypes
  import opened FontTables
  import opened GlyphDecode

  // ------------------------------------------------------------------ keys

  type Key = k: int | 0 <= k < 0x2_0000

  /** The tag of an empty way. Keys are smaller. */
  const EMPTY := 0xFFFF_FFFF

  const SETS := 128

  const SPRITE_BASE := 0xE000
  const SPRITE_COUNT := 8

  function KeyOf(cp: Codepoint, bold: bool): (k: Key)
    ensures CpOf(k) == cp && BoldOf(k) == bold
  {
    cp + (if bold then 0x1_0000 else 0)
  }

  function CpOf(k: Key): Codepoint { k % 0x1_0000 }

  predicate BoldOf(k: Key) { k >= 0x1_0000 }

  /** Fibonacci hashing: the top seven bits of a 32-bit product. */
  function SetOf(k: Key): (s: nat)
    ensures s < SETS
  {
    (k * 2654435761 % 0x1_0000_0000) / 0x200_0000
  }

  predicate IsSprite(k: Key) {
    SPRITE_BASE <= CpOf(k) < SPRITE_BASE + SPRITE_COUNT
  }

  function SlotOf(k: Key): (slot: nat)
    requires IsSprite(k)
    ensures slot < SPRITE_COUNT
  {
    CpOf(k) - SPRITE_BASE
  }

  /** Keys, sets and slots in numbers. The set is the top seven bits of the 32-bit
      product; the eight codepoints from U+E000 are the sprite slots, bold or not. */
  lemma KeysInNumbers(cp: Codepoint, bold: bool)
    ensures var k := KeyOf(cp, bold);
            && k == (if bold then cp + 0x1_0000 else cp)
            && SetOf(k) * 0x200_0000 <= k * 2654435761 % 0x1_0000_0000 < (SetOf(k) + 1) * 0x200_0000
            && (IsSprite(k) <==> 0xE000 <= cp <= 0xE007)
            && (IsSprite(k) ==> SlotOf(k) == cp - 0xE000)
  {
  }

  // --------------------------------------------------------------- one set

  /** The two tags of a set, and the way the next eviction takes. */
  datatype Ways = Ways(t0: int, t1: int, victim: bool) {
    predicate Holds(k: Key) {
      t0 == k || t1 == k
    }

    /** No key sits in both ways. */
    predicate Distinct() {
      t0 == t1 ==> t0 == EMPTY
    }

    predicate Full() {
      t0 != EMPTY && t1 != EMPTY
    }

    /** Which way serves k: the one holding it, else a free one, else the victim. */
    function WayFor(k: Key): (w: nat)
      ensures w < 2
    {
      if t0 == k then 0
      else if t1 == k then 1
      else if t0 == EMPTY then 0
      else if t1 == EMPTY then 1
      else if victim then 1 else 0
    }

    /** The set after k was looked up. Hits change nothing; the victim advances only
        when a full set is refilled. */
    function Access(k: Key): Ways {
      if Holds(k) then this
      else if WayFor(k) == 0 then Ways(k, t1, if Full() then !victim else victim)
      else Ways(t0, k, if Full() then !victim else victim)
    }
  }

  lemma AccessHolds(w: Ways, k: Key)
    requires w.Distinct()
    ensures w.Access(k).Distinct() && w.Access(k).Holds(k)
    ensures w.Holds(k) ==> w.Access(k) == w
  {
  }

  // ------------------------------------------------------------ miss bound

  function Run(w: Ways, keys: seq<Key>): Ways
    decreases |keys|
  {
    if keys == [] then w else Run(w.Access(keys[0]), keys[1..])
  }

  function Misses(w: Ways, keys: seq<Key>): nat
    decreases |keys|
  {
    if keys == [] then 0
    else (if w.Holds(keys[0]) then 0 else 1) + Misses(w.Access(keys[0]), keys[1..])
  }

  predicate OnlyTwo(keys: seq<Key>, a: Key, b: Key) {
    forall i :: 0 <= i < |keys| ==> keys[i] == a || keys[i] == b
  }

  /** How many more misses a set can take while only a and b are asked of it. */
  function Budget(w: Ways, a: Key, b: Key): nat {
    if w.Holds(a) && w.Holds(b) then 0
    else if w.Holds(a) || w.Holds(b) then
      // a wanted key is next out of a full set exactly when the victim bit points at it
      if w.Full() && (w.t0 == a || w.t0 == b) != w.victim then 2 else 1
    else if !w.Full() && !(w.t0 == EMPTY && w.t1 == EMPTY) && w.victim != (w.t0 == EMPTY) then 3
    else 2
  }

  lemma BudgetStep(w: Ways, a: Key, b: Key, k: Key)
    requires w.Distinct() && a != b && (k == a || k == b)
    ensures (if w.Holds(k) then 0 else 1) + Budget(w.Access(k), a, b) <= Budget(w, a, b)
  {
  }

  /** From any state of a set, accesses to only two keys miss at most Budget times,
      three at worst. */
  lemma {:induction false} MissBound(w: Ways, keys: seq<Key>, a: Key, b: Key)
    requires w.Distinct() && a != b && OnlyTwo(keys, a, b)
    ensures Misses(w, keys) + Budget(Run(w, keys), a, b) <= Budget(w, a, b) <= 3
    decreases |keys|
  {
    if keys != [] {
      BudgetStep(w, a, b, keys[0]);
      AccessHolds(w, keys[0]);
      MissBound(w.Access(keys[0]), keys[1..], a, b);
    }
  }

  /** The bound is exact: some sequence of the two keys misses that often. */
  lemma MissBoundAttained(w: Ways, a: Key, b: Key) returns (keys: seq<Key>)
    requires w.Distinct() && a != b
    ensures OnlyTwo(keys, a, b) && Misses(w, keys) == Budget(w, a, b)
  {
    var first, second := if w.Holds(a) then b else a, if w.Holds(a) then a else b;
    keys := [first, second, first];
    var w1 := w.Access(first);
    var w2 := w1.Access(second);
    assert keys[1..] == [second, first] && keys[1..][1..] == [first] && [first][1..] == [];
    assert Misses(w2, [first]) == if w2.Holds(first) then 0 else 1;
    assert Misses(w1, [second, first]) == (if w1.Holds(second) then 0 else 1) + Misses(w2, [first]);
  }

  /** Once both keys are resident the set is read-only. */
  lemma {:induction false} ResidentIsReadOnly(w: Ways, keys: seq<Key>, a: Key, b: Key)
    requires w.Holds(a) && w.Holds(b) && OnlyTwo(keys, a, b)
    ensures Run(w, keys) == w && Misses(w, keys) == 0
    decreases |keys|
  {
    if keys != [] {
      ResidentIsReadOnly(w, keys[1..], a, b);
    }
  }

  /** What a set filled from cold looks like when no line was ever invalidated. */
  predicate Grown(w: Ways) {
    w.Distinct() && (!w.Full() ==> !w.victim && w.t1 == EMPTY)
  }

  /** Without invalidation the worst case is two misses, whatever was asked before. */
  lemma {:induction false} GrownMissBound(w: Ways, before: seq<Key>, keys: seq<Key>, a: Key, b: Key)
    requires Grown(w) && a != b && OnlyTwo(keys, a, b)
    ensures Grown(Run(w, before))
    ensures Misses(Run(w, before), keys) <= 2
    decreases |before|
  {
    if before == [] {
      MissBound(w, keys, a, b);
    } else {
      AccessHolds(w, before[0]);
      GrownMissBound(w.Access(before[0]), before[1..], keys, a, b);
    }
  }

  // ----------------------------------------------------------- victim bits

  /** `1u << k` within one byte. */
  function Mask(k: nat): bv8
    requires k < 8
  {
    if k == 0 then 0x01 else if k == 1 then 0x02 else if k == 2 then 0x04 else if k == 3 then 0x08
    else if k == 4 then 0x10 else if k == 5 then 0x20 else if k == 6 then 0x40 else 0x80
  }

  predicate BitSet(b: bv8, k: nat)
    requires k < 8
  {
    b & Mask(k) != 0
  }

  /** Flipping one bit flips that bit and no other. */
  lemma FlipBit(b: bv8, j: nat, k: nat)
    requires j < 8 && k < 8
    ensures BitSet(b ^ Mask(j), k) <==> (if j == k then !BitSet(b, k) else BitSet(b, k))
  {
    match j
    case 0 => case 1 => case 2 => case 3 => case 4 => case 5 => case 6 => case _ =>
  }

  // ----------------------------------------------------------------- cache

  /** The two bitmaps of a sprite slot, in one flat table. */
  function BufferIndex(slot: nat, second: bool): nat {
    2 * slot + (if second then 1 else 0)
  }

  /** The cache and the sprite table behind it. A line's rows are kept as one value. */
  class Cache {
    const tables: Tables
    const on: bool                    // false: no memory for the cache, decode every time
    const tags: array<int>            // two per set
    const bits: array<bv8>            // one victim bit per set
    const lines: array<Cell>
    const spriteRows: array<Cell>     // two buffers per slot
    const spriteActive: array<bool>   // which of the two is shown

    ghost predicate Shape()
      reads this
    {
      && Decodable(tables) && (tables.code.rb == 1 || tables.code.rb == 2)
      && tags.Length == 2 * SETS && bits.Length == SETS / 8 && lines.Length == 2 * SETS
      && spriteRows.Length == 2 * SPRITE_COUNT && spriteActive.Length == SPRITE_COUNT
      && lines != spriteRows
      && {tags as object, bits, lines} !! {spriteRows as object, spriteActive}
    }

    ghost predicate Valid()
      reads this, tags, bits, lines, spriteRows, spriteActive
    {
      && Shape()
      && (forall i :: 0 <= i < 2 * SETS ==> LineOk(i))
      && (!on ==> forall i :: 0 <= i < 2 * SETS ==> tags[i] == EMPTY)
      && (forall b :: 0 <= b < SETS ==> WaysOf(b).Distinct())
    }

    /** A tagged line belongs to its set and holds what an uncached decode would draw. */
    ghost predicate LineOk(i: nat)
      requires Shape() && i < 2 * SETS
      reads this, tags, lines, spriteRows, spriteActive
    {
      tags[i] != EMPTY ==>
        && 0 <= tags[i] < 0x2_0000 && SetOf(tags[i]) == i / 2
        && lines[i] == Uncached(tags[i])
    }

    /** Set b: its two tags and its victim bit. */
    ghost function WaysOf(b: nat): Ways
      requires Shape() && b < SETS
      reads this, tags, bits
    {
      Ways(tags[2 * b], tags[2 * b + 1], BitSet(bits[b / 8], b % 8))
    }

    /** What decode_uncached draws for key k: a sprite slot's active buffer, bold or
        not; else the font's glyph. */
    ghost function Uncached(k: Key): Cell
      requires Shape()
      reads this, spriteRows, spriteActive
    {
      if IsSprite(k) then spriteRows[BufferIndex(SlotOf(k), spriteActive[SlotOf(k)])]
      else GlyphCell(tables, CpOf(k), BoldOf(k))
    }

    /** Nothing but set b changed. */
    twostate predicate OnlySet(b: nat)
      requires Shape() && b < SETS
      reads this, tags, bits
    {
      forall s :: 0 <= s < SETS && s != b ==> WaysOf(s) == old(WaysOf(s))
    }

    /** gc_victim: read the bit, then flip it. */
    method GcVictim(b: nat) returns (way: nat)
      requires Shape() && b < SETS
      modifies bits
      ensures way == if old(WaysOf(b)).victim then 1 else 0
      ensures WaysOf(b) == old(WaysOf(b)).(victim := !old(WaysOf(b)).victim)
      ensures OnlySet(b)
    {
      hide Decodable, Mask, BitSet;
      way := if BitSet(bits[b / 8], b % 8) then 1 else 0;
      forall s | 0 <= s < SETS && s / 8 == b / 8
        ensures BitSet(bits[b / 8] ^ Mask(b % 8), s % 8) <==>
                (if s == b then !BitSet(bits[s / 8], s % 8) else BitSet(bits[s / 8], s % 8))
      {
        FlipBit(bits[b / 8], b % 8, s % 8);
      }
      bits[b / 8] := bits[b / 8] ^ Mask(b % 8);
    }

    /** decode_uncached. */
    method DecodeUncached(k: Key) returns (cell: Cell)
      requires Shape()
      ensures cell == Uncached(k)
    {
      if IsSprite(k) {
        cell := spriteRows[BufferIndex(SlotOf(k), spriteActive[SlotOf(k)])];
      } else {
        var out := new Row[tables.height];
        DecodeGlyph(tables, CpOf(k), BoldOf(k), out);
        cell := out[..];
      }
    }

    /** The way a fill takes: a free one, else the victim. */
    method PickWay(b: nat) returns (way: nat)
      requires Shape() && b < SETS
      modifies bits
      ensures var w := old(WaysOf(b));
              && way == (if w.t0 == EMPTY then 0 else if w.t1 == EMPTY then 1 else if w.victim then 1 else 0)
              && WaysOf(b) == w.(victim := if w.Full() then !w.victim else w.victim)
      ensures OnlySet(b)
    {
      if tags[2 * b] == EMPTY {
        way := 0;
      } else if tags[2 * b + 1] == EMPTY {
        way := 1;
      } else {
        way := GcVictim(b);
      }
    }

    /** gc_fill: pick a way, decode into its line, tag it. */
    method GcFill(b: nat, k: Key) returns (way: nat)
      requires Valid() && on && b == SetOf(k) && !WaysOf(b).Holds(k)
      modifies tags, bits, lines
      ensures Valid()
      ensures way == old(WaysOf(b)).WayFor(k)
      ensures WaysOf(b) == old(WaysOf(b)).Access(k) && OnlySet(b)
      ensures lines[2 * b + way] == Uncached(k)
    {
      hide SetOf, Decodable, GlyphCell, BitSet, IsSprite;
      way := PickWay(b);
      var cell := DecodeUncached(k);
      var i := 2 * b + way;
      lines[i] := cell;
      tags[i] := k;
      forall s | 0 <= s < SETS ensures WaysOf(s).Distinct() {
        assert old(WaysOf(s)).Distinct();
        if s != b {
          assert WaysOf(s) == old(WaysOf(s));
        }
      }
      assert Uncached(k) == old(Uncached(k));
      forall j | 0 <= j < 2 * SETS ensures LineOk(j) {
        assert old(LineOk(j));
        if j == i {
          assert tags[j] == k && lines[j] == Uncached(k) && j / 2 == b;
        } else {
          assert tags[j] == old(tags[j]) && lines[j] == old(lines[j]);
          if tags[j] != EMPTY {
            assert Uncached(tags[j]) == old(Uncached(tags[j]));
          }
        }
      }
    }

    /** font_decode_glyph: a hit, or a fill, then copy the line. The caller gets exactly
        the uncached decode, and only the key's own set moved. */
    method FontDecodeGlyph(cp: Codepoint, bold: bool) returns (out: Cell)
      requires Valid()
      modifies tags, bits, lines
      ensures Valid() && out == Uncached(KeyOf(cp, bold))
      ensures on ==> WaysOf(SetOf(KeyOf(cp, bold))) == old(WaysOf(SetOf(KeyOf(cp, bold)))).Access(KeyOf(cp, bold))
      ensures OnlySet(SetOf(KeyOf(cp, bold)))
    {
      hide SetOf, Decodable, GlyphCell, BitSet, IsSprite;
      var k := KeyOf(cp, bold);
      if !on {
        out := DecodeUncached(k);
        return;
      }
      var b := SetOf(k);
      assert LineOk(2 * b) && LineOk(2 * b + 1);
      var way;
      if tags[2 * b] == k {
        way := 0;
      } else if tags[2 * b + 1] == k {
        way := 1;
      } else {
        way := GcFill(b, k);
      }
      out := lines[2 * b + way];
    }

    /** Clear one key's tag, in whichever way of its set holds it. */
    method DropKey(k: Key)
      requires Valid()
      modifies tags
      ensures Valid()
      ensures forall i :: 0 <= i < tags.Length ==> tags[i] == if old(tags[i]) == k then EMPTY else old(tags[i])
    {
      hide Decodable, GlyphCell, BitSet, IsSprite;
      var b := SetOf(k);
      ghost var before := tags[..];
      for w := 0 to 2
        invariant forall i :: 0 <= i < tags.Length ==>
                    tags[i] == if 2 * b <= i < 2 * b + w && before[i] == k then EMPTY else before[i]
      {
        if tags[2 * b + w] == k {
          tags[2 * b + w] := EMPTY;
        }
      }
      forall i | 0 <= i < 2 * SETS
        ensures tags[i] == (if before[i] == k then EMPTY else before[i]) && LineOk(i)
      {
        assert old(LineOk(i));
      }
      forall s | 0 <= s < SETS ensures WaysOf(s).Distinct() {
        assert old(WaysOf(s)).Distinct();
      }
    }

    /** gc_invalidate_cp: drop both variants of a codepoint. */
    method GcInvalidate(cp: Codepoint)
      requires Valid()
      modifies tags
      ensures Valid()
      ensures forall i :: 0 <= i < tags.Length ==>
                tags[i] == if old(tags[i]) == KeyOf(cp, false) || old(tags[i]) == KeyOf(cp, true)
                    then EMPTY else old(tags[i])
    {
      if on {
        DropKey(KeyOf(cp, false));
        DropKey(KeyOf(cp, true));
      }
    }

    /** font_sprite_set with nothing else running: fill the hidden buffer, drop the
        slot's lines, flip, drop again. Both variants of the slot's codepoint show the
        new rows from here on, every other key what it showed before. */
    method SpriteSet(slot: nat, rows: Cell)
      requires Valid() && slot < SPRITE_COUNT
      modifies tags, spriteRows, spriteActive
      ensures Valid()
      ensures forall k: Key :: Uncached(k) == if IsSprite(k) && SlotOf(k) == slot then rows else old(Uncached(k))
    {
      hide SetOf, Decodable, GlyphCell, BitSet;
      var cp := SPRITE_BASE + slot;
      var next := !spriteActive[slot];
      spriteRows[BufferIndex(slot, next)] := rows;
      assert forall k: Key :: Uncached(k) == old(Uncached(k));
      forall i | 0 <= i < 2 * SETS ensures LineOk(i) {
        assert old(LineOk(i));
      }
      forall b | 0 <= b < SETS ensures WaysOf(b).Distinct() {
        assert old(WaysOf(b)).Distinct();
      }
      GcInvalidate(cp);
      label dropped:
      forall i | 0 <= i < 2 * SETS
        ensures tags[i] != EMPTY ==> 0 <= tags[i] < 0x2_0000 && CpOf(tags[i]) != cp
      {
        assert LineOk(i);
      }
      spriteActive[slot] := next;
      forall i | 0 <= i < 2 * SETS ensures LineOk(i) {
        assert old@dropped(LineOk(i));
      }
      forall b | 0 <= b < SETS ensures WaysOf(b).Distinct() {
        assert old@dropped(WaysOf(b)).Distinct();
      }
      GcInvalidate(cp);
    }

    /** gcache_init over blank sprites: an empty cache, all victim bits clear. */
    constructor (t: Tables, enabled: bool)
      requires Decodable(t) && (t.code.rb == 1 || t.code.rb == 2)
      ensures Valid() && tables == t && on == enabled
      ensures forall b :: 0 <= b < SETS ==> WaysOf(b) == Ways(EMPTY, EMPTY, false)
      ensures forall k: Key :: IsSprite(k) ==> Uncached(k) == Blank(t.height)
    {
      tables := t;
      on := enabled;
      tags := new int[2 * SETS](_ => EMPTY);
      bits := new bv8[SETS / 8](_ => 0);
      lines := new Cell[2 * SETS](_ => []);
      spriteRows := new Cell[2 * SPRITE_COUNT](_ => Blank(t.height));
      spriteActive := new bool[SPRITE_COUNT](_ => false);
    }
  }

  // --------------------------------------------------- runs of the whole cache

  datatype Request = Request(cp: Codepoint, bold: bool)

  function KeyFor(q: Request): Key { KeyOf(q.cp, q.bold) }

  /** The keys of a run that fall into set b, in order. */
  function InSet(run: seq<Request>, b: nat): seq<Key>
    decreases |run|
  {
    if run == [] then []
    else InSet(run[..|run| - 1], b) + (if SetOf(KeyFor(run[|run| - 1])) == b then [KeyFor(run[|run| - 1])] else [])
  }

  /** What the run would decode without a cache. */
  ghost function Decodes(c: Cache, run: seq<Request>): (cells: seq<Cell>)
    requires c.Shape()
    reads c, c.spriteRows, c.spriteActive
    ensures |cells| == |run|
    decreases |run|
  {
    if run == [] then [] else Decodes(c, run[..|run| - 1]) + [c.Uncached(KeyFor(run[|run| - 1]))]
  }

  lemma ValidParts(c: Cache, b: nat)
    requires c.Valid() && b < SETS
    ensures c.Shape() && c.WaysOf(b).Distinct()
  {
  }

  lemma DecodesNext(c: Cache, run: seq<Request>, n: nat)
    requires c.Shape() && n < |run|
    ensures Decodes(c, run[..n + 1]) == Decodes(c, run[..n]) + [c.Uncached(KeyFor(run[n]))]
  {
    assert run[..n + 1][..n] == run[..n];
  }

  lemma NoDecodes(c: Cache, run: seq<Request>)
    requires c.Shape()
    ensures Decodes(c, run[..0]) == []
  {
  }

  lemma InSetNext(run: seq<Request>, n: nat, b: nat)
    requires n < |run|
    ensures InSet(run[..n + 1], b) == InSet(run[..n], b) + (if SetOf(KeyFor(run[n])) == b then [KeyFor(run[n])] else [])
  {
    assert run[..n + 1][..n] == run[..n];
  }

  lemma {:induction false} RunAppend(w: Ways, keys: seq<Key>, k: Key)
    ensures Run(w, keys + [k]) == Run(w, keys).Access(k)
    ensures Misses(w, keys + [k]) == Misses(w, keys) + (if Run(w, keys).Holds(k) then 0 else 1)
    decreases |keys|
  {
    if keys == [] {
      assert (keys + [k])[1..] == [];
    } else {
      assert (keys + [k])[1..] == keys[1..] + [k];
      RunAppend(w.Access(keys[0]), keys[1..], k);
    }
  }

  /** Any run of requests over all keys: each returns its uncached decode, and one watched
      set moves as its own keys alone would move it, missing as often. If those are only
      two keys it misses at most three times. */
  method Serve(c: Cache, run: seq<Request>, ghost b: nat) returns (cells: seq<Cell>, ghost misses: nat)
    requires c.Valid() && c.on && b < SETS
    modifies c.tags, c.bits, c.lines
    ensures c.Valid() && cells == Decodes(c, run) == old(Decodes(c, run))
    ensures c.WaysOf(b) == Run(old(c.WaysOf(b)), InSet(run, b)) && misses == Misses(old(c.WaysOf(b)), InSet(run, b))
    ensures forall x: Key, y: Key :: x != y && OnlyTwo(InSet(run, b), x, y) ==> misses <= 3
  {
    hide Cache.Valid, Cache.LineOk, Cache.Uncached, Cache.WaysOf, SetOf, KeyFor, Ways.Access, Ways.Holds,
         Run, Misses, InSet, OnlyTwo, Decodes;
    ValidParts(c, b);
    ghost var start := c.WaysOf(b);
    cells, misses := [], 0;
    var n := 0;
    EmptyRun(start, run, b);
    NoDecodes(c, run);
    while n < |run|
      invariant 0 <= n <= |run| && c.Valid() && |cells| == n
      invariant cells == Decodes(c, run[..n])
      invariant Watched(start, run, n, b, c.WaysOf(b), misses)
    {
      WatchedNext(start, run, n, b, c.WaysOf(b), misses);
      misses := misses + if SetOf(KeyFor(run[n])) == b && !c.WaysOf(b).Holds(KeyFor(run[n])) then 1 else 0;
      var cell := ServeOne(c, run[n], b);
      cells := cells + [cell];
      DecodesNext(c, run, n);
      n := n + 1;
    }
    assert run[..|run|] == run;
    forall x: Key, y: Key | x != y && OnlyTwo(InSet(run, b), x, y) ensures misses <= 3 {
      ThreeAtMost(start, InSet(run, b), x, y);
    }
  }

  /** Set b and its misses after n requests. */
  ghost predicate Watched(start: Ways, run: seq<Request>, n: nat, b: nat, now: Ways, misses: nat) {
    n <= |run| && now == Run(start, InSet(run[..n], b)) && misses == Misses(start, InSet(run[..n], b))
  }

  lemma WatchedNext(start: Ways, run: seq<Request>, n: nat, b: nat, now: Ways, misses: nat)
    requires n < |run| && Watched(start, run, n, b, now, misses)
    ensures Watched(start, run, n + 1, b, if SetOf(KeyFor(run[n])) == b then now.Access(KeyFor(run[n])) else now,
                    misses + if SetOf(KeyFor(run[n])) == b && !now.Holds(KeyFor(run[n])) then 1 else 0)
  {
    hide SetOf, KeyFor, Ways.Access, Ways.Holds, Run, Misses, InSet;
    InSetNext(run, n, b);
    if SetOf(KeyFor(run[n])) == b {
      RunAppend(start, InSet(run[..n], b), KeyFor(run[n]));
    } else {
      assert InSet(run[..n], b) + [] == InSet(run[..n], b);
    }
  }

  lemma ThreeAtMost(w: Ways, keys: seq<Key>, x: Key, y: Key)
    requires w.Distinct() && x != y && OnlyTwo(keys, x, y)
    ensures Misses(w, keys) <= 3
  {
    MissBound(w, keys, x, y);
  }

  /** One request, as set b sees it. */
  method ServeOne(c: Cache, q: Request, ghost b: nat) returns (cell: Cell)
    requires c.Valid() && c.on && b < SETS
    modifies c.tags, c.bits, c.lines
    ensures c.Valid() && cell == c.Uncached(KeyFor(q))
    ensures forall k: Key :: c.Uncached(k) == old(c.Uncached(k))
    ensures c.WaysOf(b) == if SetOf(KeyFor(q)) == b then old(c.WaysOf(b)).Access(KeyFor(q)) else old(c.WaysOf(b))
  {
    hide Cache.LineOk, SetOf, KeyOf, IsSprite, Ways.Access, BitSet, GlyphCell, Decodable;
    cell := c.FontDecodeGlyph(q.cp, q.bold);
  }

  lemma EmptyRun(w: Ways, run: seq<Request>, b: nat)
    ensures Run(w, InSet(run[..0], b)) == w && Misses(w, InSet(run[..0], b)) == 0
  {
  }
}
