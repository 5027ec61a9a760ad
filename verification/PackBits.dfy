/** The row compressor of tools/gen_terminus.py and the stream decoder it is
    written for. The encoder is a dynamic program over row prefixes; the results
    here are that its output decodes to the rows it was given, and that no byte
    stream decoding to those rows is shorter. */
module PackBits {
  import opened FontTypes

  /** What a read at some position yields, and the position after it. Malformed
      when the pool or the palette ends too soon. */
  datatype ReadRow = BadRow | OneRow(row: Row, end: nat)
  datatype ReadRows = BadRows | ManyRows(rows: seq<Row>, end: nat)

  // ---------------------------------------------------------------- symbols

  /** How one row becomes bytes: verbatim when rb == 1; for rb == 2 an index into
      the shared palette, or 0xFF and the two row bytes, low byte first. */
  datatype SymbolCode = SymbolCode(rb: nat, palette: seq<Row>) {
    predicate Valid() {
      && (rb == 1 || rb == 2)
      && |palette| <= 255
      && NoDuplicates(palette)
    }

    function Cost(r: Row): (c: nat) {
      if rb == 1 || r in palette then 1 else 3
    }

    function Emit(r: Row): (bytes: seq<Byte>)
      requires Valid()
      ensures |bytes| == Cost(r)
    {
      if rb == 1 then [LowByte(r)]
      else if r in palette then [IndexOf(palette, r)]
      else [0xFF, LowByte(r), HighByte(r)]
    }

    /** Read one symbol at `pos`. */
    function Read(pool: seq<Byte>, pos: nat): (r: ReadRow)
      requires Valid()
      ensures r.OneRow? ==> pos < r.end <= |pool|
    {
      if pos >= |pool| then BadRow
      else if rb == 1 then OneRow(JoinBytes(pool[pos], 0), pos + 1)
      else if pool[pos] == 0xFF then
        if pos + 2 >= |pool| then BadRow
        else OneRow(JoinBytes(pool[pos + 1], pool[pos + 2]), pos + 3)
      else if pool[pos] < |palette| then OneRow(palette[pool[pos]], pos + 1)
      else BadRow
    }
  }

  function LowByte(r: Row): Byte { r % 256 }

  function HighByte(r: Row): Byte { r / 256 }

  /** Low byte first. */
  function JoinBytes(lo: Byte, hi: Byte): Row { lo + 256 * hi }

  lemma JoinSplit(r: Row)
    ensures JoinBytes(LowByte(r), HighByte(r)) == r
    ensures r < 256 ==> JoinBytes(LowByte(r), 0) == r
  {
  }

  function IndexOf(s: seq<Row>, r: Row): (i: nat)
    requires r in s
    ensures i < |s| && s[i] == r
  {
    if s[0] == r then 0 else 1 + IndexOf(s[1..], r)
  }

  /** Whatever symbol encoding a stream chose for a row, it is no shorter than ours. */
  lemma ReadCostsAtLeast(code: SymbolCode, pool: seq<Byte>, pos: nat)
    requires code.Valid() && code.Read(pool, pos).OneRow?
    ensures code.Read(pool, pos).end >= pos + code.Cost(code.Read(pool, pos).row)
  {
  }

  lemma EmitThenRead(code: SymbolCode, pool: seq<Byte>, pos: nat, r: Row)
    requires code.Valid() && FitsRowBytes(code.rb, r)
    requires Holds(pool, pos, code.Emit(r))
    ensures code.Read(pool, pos) == OneRow(r, pos + code.Cost(r))
  {
    var bytes := code.Emit(r);
    assert bytes[0] == pool[pos];
    if code.rb == 2 && r !in code.palette {
      assert bytes[1] == pool[pos + 1] && bytes[2] == pool[pos + 2];
    }
    JoinSplit(r);
  }

  // ---------------------------------------------------------------- decoder

  function ReadLiterals(code: SymbolCode, pool: seq<Byte>, pos: nat, count: nat): (r: ReadRows)
    requires code.Valid()
    ensures r.ManyRows? ==> |r.rows| == count && pos <= r.end
    decreases count
  {
    if count == 0 then ManyRows([], pos)
    else match code.Read(pool, pos)
      case BadRow => BadRows
      case OneRow(row, p) =>
        match ReadLiterals(code, pool, p, count - 1)
        case BadRows => BadRows
        case ManyRows(rest, q) => ManyRows([row] + rest, q)
  }

  /** One control byte and its payload. */
  function ReadSegment(code: SymbolCode, pool: seq<Byte>, pos: nat): (r: ReadRows)
    requires code.Valid()
    ensures r.ManyRows? ==> 1 <= |r.rows| <= 129 && pos < r.end
  {
    if pos >= |pool| then BadRows
    else if pool[pos] < 0x80 then ReadLiterals(code, pool, pos + 1, pool[pos] + 1)
    else match code.Read(pool, pos + 1)
      case BadRow => BadRows
      case OneRow(row, p) => ManyRows(Repeat(row, pool[pos] % 0x80 + 2), p)
  }

  /** The decoder's loop: produce `want` rows starting at `pos`. Malformed when a
      segment overshoots the rows still wanted. */
  function Run(code: SymbolCode, pool: seq<Byte>, pos: nat, want: nat): (r: ReadRows)
    requires code.Valid()
    ensures r.ManyRows? ==> |r.rows| == want && pos <= r.end
    decreases want
  {
    if want == 0 then ManyRows([], pos)
    else match ReadSegment(code, pool, pos)
      case BadRows => BadRows
      case ManyRows(rows, p) =>
        if |rows| > want then BadRows
        else match Run(code, pool, p, want - |rows|)
          case BadRows => BadRows
          case ManyRows(rest, end) => ManyRows(rows + rest, end)
  }

  /** The pool decodes to exactly `rows` at `pos`. */
  predicate YieldsRows(code: SymbolCode, pool: seq<Byte>, pos: nat, rows: seq<Row>)
    requires code.Valid()
  {
    var r := Run(code, pool, pos, |rows|);
    r.ManyRows? && r.rows == rows
  }

  /** The first segment of a run holds the next rows; the rest of the run the others. */
  lemma RunAdvances(code: SymbolCode, pool: seq<Byte>, p: nat, rows: seq<Row>, done: nat)
    requires code.Valid() && done < |rows| && YieldsRows(code, pool, p, rows[done..])
    ensures ReadSegment(code, pool, p).ManyRows?
    ensures var ManyRows(seg, q) := ReadSegment(code, pool, p);
            && done + |seg| <= |rows| && rows[done..done + |seg|] == seg
            && YieldsRows(code, pool, q, rows[done + |seg|..])
            && Run(code, pool, q, |rows| - done - |seg|).end == Run(code, pool, p, |rows| - done).end
  {
    var ManyRows(seg, q) := ReadSegment(code, pool, p);
    var rest := Run(code, pool, q, |rows| - done - |seg|).rows;
    assert |rows[done..]| == |rows| - done;
    assert rows[done..] == seg + rest;
    assert rows[done..done + |seg|] == rows[done..][..|seg|] == seg;
    assert rows[done + |seg|..] == rows[done..][|seg|..] == rest;
  }

  function Repeat(row: Row, n: nat): seq<Row> {
    seq(n, _ => row)
  }

  // --------------------------------------------------------------- segments

  /** One control byte's worth of output. */
  datatype Segment = Lit(n: nat) | Rep(n: nat)

  datatype Segments = Done | Then(head: Segment, tail: Segments)

  /** Is `s` a legal segment for the rows from index i on? */
  predicate SegOk(rows: seq<Row>, i: nat, s: Segment) {
    && i + s.n <= |rows|
    && match s
       case Lit(n) => 1 <= n <= 128
       case Rep(n) => 2 <= n <= 129 && forall k :: i <= k < i + n ==> rows[k] == rows[i]
  }

  function SumCost(code: SymbolCode, rows: seq<Row>, i: nat, j: nat): nat
    requires i <= j <= |rows|
  {
    if i == j then 0 else SumCost(code, rows, i, j - 1) + code.Cost(rows[j - 1])
  }

  function SegCost(code: SymbolCode, rows: seq<Row>, i: nat, s: Segment): nat
    requires SegOk(rows, i, s)
  {
    1 + match s
        case Lit(n) => SumCost(code, rows, i, i + n)
        case Rep(_) => code.Cost(rows[i])
  }

  /** `segs` cuts the rows from index i to the end into legal segments. */
  predicate Tiles(rows: seq<Row>, i: nat, segs: Segments)
    decreases segs
  {
    match segs
    case Done => i == |rows|
    case Then(s, rest) => SegOk(rows, i, s) && Tiles(rows, i + s.n, rest)
  }

  function TotalCost(code: SymbolCode, rows: seq<Row>, i: nat, segs: Segments): nat
    requires Tiles(rows, i, segs)
    decreases segs
  {
    match segs
    case Done => 0
    case Then(s, rest) => SegCost(code, rows, i, s) + TotalCost(code, rows, i + s.n, rest)
  }

  // ------------------------------------------- a decoded stream is a tiling

  lemma {:induction false} LiteralsCostAtLeast(code: SymbolCode, pool: seq<Byte>, pos: nat, rows: seq<Row>, i: nat,
                                               n: nat)
    requires code.Valid() && i + n <= |rows|
    requires ReadLiterals(code, pool, pos, n).ManyRows?
    requires ReadLiterals(code, pool, pos, n).rows == rows[i..i + n]
    ensures ReadLiterals(code, pool, pos, n).end >= pos + SumCost(code, rows, i, i + n)
    decreases n
  {
    if n > 0 {
      ReadCostsAtLeast(code, pool, pos);
      var OneRow(row, p) := code.Read(pool, pos);
      var rest := ReadLiterals(code, pool, p, n - 1).rows;
      assert row == ([row] + rest)[0] == rows[i];
      assert rest == ([row] + rest)[1..] == rows[i + 1..i + n];
      LiteralsCostAtLeast(code, pool, p, rows, i + 1, n - 1);
      SumCostFromFront(code, rows, i, i + n);
    }
  }

  lemma {:induction false} SumCostFromFront(code: SymbolCode, rows: seq<Row>, i: nat, j: nat)
    requires i < j <= |rows|
    ensures SumCost(code, rows, i, j) == code.Cost(rows[i]) + SumCost(code, rows, i + 1, j)
    decreases j
  {
    if i + 1 < j {
      SumCostFromFront(code, rows, i, j - 1);
    } else {
      assert SumCost(code, rows, i, i) == 0 && SumCost(code, rows, i + 1, i + 1) == 0;
    }
  }

  lemma SegmentReadIsLegal(code: SymbolCode, pool: seq<Byte>, pos: nat, rows: seq<Row>, i: nat) returns (seg: Segment)
    requires code.Valid() && ReadSegment(code, pool, pos).ManyRows?
    requires i + |ReadSegment(code, pool, pos).rows| <= |rows|
    requires ReadSegment(code, pool, pos).rows == rows[i..i + |ReadSegment(code, pool, pos).rows|]
    ensures SegOk(rows, i, seg) && seg.n == |ReadSegment(code, pool, pos).rows|
    ensures pos + SegCost(code, rows, i, seg) <= ReadSegment(code, pool, pos).end
  {
    var ManyRows(head, p) := ReadSegment(code, pool, pos);
    if pool[pos] < 0x80 {
      seg := Lit(|head|);
      LiteralsCostAtLeast(code, pool, pos + 1, rows, i, |head|);
    } else {
      seg := Rep(|head|);
      forall k | i <= k < i + |head| ensures rows[k] == head[0] {
        assert rows[k] == head[k - i];
      }
      ReadCostsAtLeast(code, pool, pos + 1);
    }
  }

  /** Where the stream that yields `rows` at `pos` ends. */
  function RunEnd(code: SymbolCode, pool: seq<Byte>, pos: nat, rows: seq<Row>): nat
    requires code.Valid() && YieldsRows(code, pool, pos, rows)
  {
    Run(code, pool, pos, |rows|).end
  }

  lemma RunHead(code: SymbolCode, pool: seq<Byte>, pos: nat, rows: seq<Row>, i: nat) returns (seg: Segment, p: nat)
    requires code.Valid() && i < |rows| && YieldsRows(code, pool, pos, rows[i..])
    ensures SegOk(rows, i, seg) && pos + SegCost(code, rows, i, seg) <= p
    ensures YieldsRows(code, pool, p, rows[i + seg.n..])
    ensures RunEnd(code, pool, p, rows[i + seg.n..]) == RunEnd(code, pool, pos, rows[i..])
  {
    hide Run, SymbolCode.Read, SumCost, SymbolCode.Valid;
    RunAdvances(code, pool, pos, rows, i);
    p := ReadSegment(code, pool, pos).end;
    seg := SegmentReadIsLegal(code, pool, pos, rows, i);
    assert |rows[i..]| == |rows| - i && |rows[i + seg.n..]| == |rows| - i - seg.n;
  }

  /** Any stream that decodes to the rows from i on induces a tiling of those rows
      that costs no more than the bytes the stream used. */
  lemma {:induction false} RunIsATiling(code: SymbolCode, pool: seq<Byte>, pos: nat, rows: seq<Row>, i: nat)
    returns (segs: Segments)
    requires code.Valid() && i <= |rows| && YieldsRows(code, pool, pos, rows[i..])
    ensures Tiles(rows, i, segs)
    ensures pos + TotalCost(code, rows, i, segs) <= RunEnd(code, pool, pos, rows[i..])
    decreases |rows| - i
  {
    if i == |rows| {
      return Done;
    }
    hide Run, SegCost, SegOk, SymbolCode.Valid, RunEnd, YieldsRows;
    var seg, p := RunHead(code, pool, pos, rows, i);
    var tail := RunIsATiling(code, pool, p, rows, i + seg.n);
    segs := Then(seg, tail);
  }

  // -------------------------------------------- a tiling emits a stream

  function EmitRows(code: SymbolCode, rows: seq<Row>, i: nat, j: nat): (bytes: seq<Byte>)
    requires code.Valid() && i <= j <= |rows|
    ensures |bytes| == SumCost(code, rows, i, j)
    decreases j
  {
    if i == j then [] else EmitRows(code, rows, i, j - 1) + code.Emit(rows[j - 1])
  }

  function EmitSegment(code: SymbolCode, rows: seq<Row>, i: nat, s: Segment): (bytes: seq<Byte>)
    requires code.Valid() && SegOk(rows, i, s)
    ensures |bytes| == SegCost(code, rows, i, s)
  {
    match s
    case Lit(n) => [n - 1] + EmitRows(code, rows, i, i + n)
    case Rep(n) => [0x80 + (n - 2)] + code.Emit(rows[i])
  }

  function EmitAll(code: SymbolCode, rows: seq<Row>, i: nat, segs: Segments): (bytes: seq<Byte>)
    requires code.Valid() && Tiles(rows, i, segs)
    decreases segs
  {
    match segs
    case Done => []
    case Then(s, rest) => EmitSegment(code, rows, i, s) + EmitAll(code, rows, i + s.n, rest)
  }

  lemma {:induction false} EmitAllLength(code: SymbolCode, rows: seq<Row>, i: nat, segs: Segments)
    requires code.Valid() && Tiles(rows, i, segs)
    ensures |EmitAll(code, rows, i, segs)| == TotalCost(code, rows, i, segs)
    decreases segs
  {
    hide EmitSegment, SegCost, SegOk, SymbolCode.Valid;
    match segs {
      case Done =>
      case Then(s, rest) => EmitAllLength(code, rows, i + s.n, rest);
    }
  }

  /** `bytes` stand in the pool at `pos`. */
  predicate Holds(pool: seq<Byte>, pos: nat, bytes: seq<Byte>) {
    pos + |bytes| <= |pool| && forall k {:trigger bytes[k]} :: 0 <= k < |bytes| ==> bytes[k] == pool[pos + k]
  }

  lemma HoldsParts(pool: seq<Byte>, pos: nat, a: seq<Byte>, b: seq<Byte>)
    requires Holds(pool, pos, a + b)
    ensures Holds(pool, pos, a) && Holds(pool, pos + |a|, b)
  {
    var c := a + b;
    assert forall k :: 0 <= k < |a| ==> a[k] == c[k];
    forall k | 0 <= k < |b| ensures b[k] == pool[pos + |a| + k] {
      assert b[k] == c[|a| + k];
    }
  }

  lemma {:induction false} ReadEmittedRows(code: SymbolCode, rows: seq<Row>, i: nat, j: nat, pool: seq<Byte>, pos: nat)
    requires code.Valid() && i <= j <= |rows| && CellFits(code.rb, rows)
    requires Holds(pool, pos, EmitRows(code, rows, i, j))
    ensures ReadLiterals(code, pool, pos, j - i) == ManyRows(rows[i..j], pos + SumCost(code, rows, i, j))
    decreases j - i
  {
    hide SymbolCode.Emit, SymbolCode.Read, Holds, EmitRows;
    if i == j {
      assert rows[i..j] == [];
    } else {
      EmitRowsFromFront(code, rows, i, j);
      HoldsParts(pool, pos, code.Emit(rows[i]), EmitRows(code, rows, i + 1, j));
      EmitThenRead(code, pool, pos, rows[i]);
      ReadEmittedRows(code, rows, i + 1, j, pool, pos + code.Cost(rows[i]));
      assert rows[i..j] == [rows[i]] + rows[i + 1..j];
    }
  }

  lemma {:induction false} EmitRowsFromFront(code: SymbolCode, rows: seq<Row>, i: nat, j: nat)
    requires code.Valid() && i < j <= |rows|
    ensures EmitRows(code, rows, i, j) == code.Emit(rows[i]) + EmitRows(code, rows, i + 1, j)
    ensures SumCost(code, rows, i, j) == code.Cost(rows[i]) + SumCost(code, rows, i + 1, j)
    decreases j
  {
    SumCostFromFront(code, rows, i, j);
    if i + 1 < j {
      EmitRowsFromFront(code, rows, i, j - 1);
    } else {
      assert EmitRows(code, rows, i, i) == [] && EmitRows(code, rows, j, j) == [];
    }
  }

  lemma ReadEmittedLit(code: SymbolCode, rows: seq<Row>, i: nat, n: nat, pool: seq<Byte>, pos: nat)
    requires code.Valid() && SegOk(rows, i, Lit(n)) && CellFits(code.rb, rows)
    requires Holds(pool, pos, [n - 1] + EmitRows(code, rows, i, i + n))
    ensures ReadSegment(code, pool, pos) == ManyRows(rows[i..i + n], pos + SegCost(code, rows, i, Lit(n)))
  {
    HoldsParts(pool, pos, [n - 1], EmitRows(code, rows, i, i + n));
    assert [n - 1][0] == pool[pos];
    ReadEmittedRows(code, rows, i, i + n, pool, pos + 1);
  }

  lemma ReadEmittedRep(code: SymbolCode, rows: seq<Row>, i: nat, n: nat, pool: seq<Byte>, pos: nat)
    requires code.Valid() && SegOk(rows, i, Rep(n)) && CellFits(code.rb, rows)
    requires Holds(pool, pos, [0x80 + (n - 2)] + code.Emit(rows[i]))
    ensures ReadSegment(code, pool, pos) == ManyRows(rows[i..i + n], pos + SegCost(code, rows, i, Rep(n)))
  {
    HoldsParts(pool, pos, [0x80 + (n - 2)], code.Emit(rows[i]));
    assert [0x80 + (n - 2)][0] == pool[pos];
    EmitThenRead(code, pool, pos + 1, rows[i]);
    assert rows[i..i + n] == Repeat(rows[i], n);
  }

  lemma ReadEmittedSegment(code: SymbolCode, rows: seq<Row>, i: nat, s: Segment, pool: seq<Byte>, pos: nat)
    requires code.Valid() && SegOk(rows, i, s) && CellFits(code.rb, rows)
    requires Holds(pool, pos, EmitSegment(code, rows, i, s))
    ensures ReadSegment(code, pool, pos) == ManyRows(rows[i..i + s.n], pos + SegCost(code, rows, i, s))
  {
    match s {
      case Lit(n) => ReadEmittedLit(code, rows, i, n, pool, pos);
      case Rep(n) => ReadEmittedRep(code, rows, i, n, pool, pos);
    }
  }

  lemma RunStep(code: SymbolCode, rows: seq<Row>, i: nat, j: nat, pool: seq<Byte>, pos: nat, p: nat, end: nat)
    requires code.Valid() && i < j <= |rows|
    requires ReadSegment(code, pool, pos) == ManyRows(rows[i..j], p)
    requires Run(code, pool, p, |rows| - j) == ManyRows(rows[j..], end)
    ensures Run(code, pool, pos, |rows| - i) == ManyRows(rows[i..], end)
  {
    assert rows[i..] == rows[i..j] + rows[j..];
    assert |rows| - i - |rows[i..j]| == |rows| - j;
  }

  /** Read from `pos`, the pool yields the segments of `segs` one after another. */
  predicate Yields(code: SymbolCode, rows: seq<Row>, i: nat, segs: Segments, pool: seq<Byte>, pos: nat)
    requires code.Valid() && Tiles(rows, i, segs)
    decreases segs
  {
    match segs
    case Done => true
    case Then(s, rest) =>
      && ReadSegment(code, pool, pos) == ManyRows(rows[i..i + s.n], pos + SegCost(code, rows, i, s))
      && Yields(code, rows, i + s.n, rest, pool, pos + SegCost(code, rows, i, s))
  }

  lemma EmitAllParts(code: SymbolCode, rows: seq<Row>, i: nat, s: Segment, rest: Segments, pool: seq<Byte>, pos: nat)
    requires code.Valid() && Tiles(rows, i, Then(s, rest))
    requires Holds(pool, pos, EmitAll(code, rows, i, Then(s, rest)))
    ensures Holds(pool, pos, EmitSegment(code, rows, i, s))
    ensures Holds(pool, pos + SegCost(code, rows, i, s), EmitAll(code, rows, i + s.n, rest))
  {
    hide Holds, EmitSegment, SegCost, SegOk, SymbolCode.Valid;
    HoldsParts(pool, pos, EmitSegment(code, rows, i, s), EmitAll(code, rows, i + s.n, rest));
  }

  /** The bytes of every segment stand one after another from `pos`. */
  predicate HoldsAll(code: SymbolCode, rows: seq<Row>, i: nat, segs: Segments, pool: seq<Byte>, pos: nat)
    requires code.Valid() && Tiles(rows, i, segs)
    decreases segs
  {
    match segs
    case Done => true
    case Then(s, rest) =>
      && Holds(pool, pos, EmitSegment(code, rows, i, s))
      && HoldsAll(code, rows, i + s.n, rest, pool, pos + SegCost(code, rows, i, s))
  }

  lemma {:induction false} EmittedHolds(code: SymbolCode, rows: seq<Row>, i: nat, segs: Segments, pool: seq<Byte>,
                                        pos: nat)
    requires code.Valid() && Tiles(rows, i, segs)
    requires Holds(pool, pos, EmitAll(code, rows, i, segs))
    ensures HoldsAll(code, rows, i, segs, pool, pos)
    decreases segs
  {
    hide Holds, EmitSegment, EmitAll, SegCost, SegOk, SymbolCode.Valid;
    match segs {
      case Done =>
      case Then(s, rest) =>
        EmitAllParts(code, rows, i, s, rest, pool, pos);
        EmittedHolds(code, rows, i + s.n, rest, pool, pos + SegCost(code, rows, i, s));
    }
  }

  lemma {:induction false} HoldsYields(code: SymbolCode, rows: seq<Row>, i: nat, segs: Segments, pool: seq<Byte>,
                                       pos: nat)
    requires code.Valid() && Tiles(rows, i, segs) && CellFits(code.rb, rows)
    requires HoldsAll(code, rows, i, segs, pool, pos)
    ensures Yields(code, rows, i, segs, pool, pos)
    decreases segs
  {
    hide Holds, ReadSegment, EmitSegment, SegCost, SegOk, CellFits, SymbolCode.Valid;
    match segs {
      case Done =>
      case Then(s, rest) =>
        ReadEmittedSegment(code, rows, i, s, pool, pos);
        HoldsYields(code, rows, i + s.n, rest, pool, pos + SegCost(code, rows, i, s));
    }
  }

  lemma YieldsParts(code: SymbolCode, rows: seq<Row>, i: nat, s: Segment, rest: Segments, pool: seq<Byte>, pos: nat)
    requires code.Valid() && Tiles(rows, i, Then(s, rest)) && Yields(code, rows, i, Then(s, rest), pool, pos)
    ensures ReadSegment(code, pool, pos) == ManyRows(rows[i..i + s.n], pos + SegCost(code, rows, i, s))
    ensures Yields(code, rows, i + s.n, rest, pool, pos + SegCost(code, rows, i, s))
  {
    hide ReadSegment, SegCost, SymbolCode.Valid;
  }

  lemma {:induction false} YieldsRun(code: SymbolCode, rows: seq<Row>, i: nat, segs: Segments, pool: seq<Byte>,
                                     pos: nat)
    requires code.Valid() && Tiles(rows, i, segs) && i <= |rows|
    requires Yields(code, rows, i, segs, pool, pos)
    ensures Run(code, pool, pos, |rows| - i) == ManyRows(rows[i..], pos + TotalCost(code, rows, i, segs))
    decreases segs
  {
    hide ReadSegment, SegCost, SegOk, SymbolCode.Valid;
    match segs {
      case Done =>
        assert rows[i..] == [];
      case Then(s, rest) =>
        hide Run, TotalCost, Tiles, Yields;
        YieldsParts(code, rows, i, s, rest, pool, pos);
        TilesParts(rows, i, s, rest);
        YieldsRun(code, rows, i + s.n, rest, pool, pos + SegCost(code, rows, i, s));
        YieldsRunThen(code, rows, i, s, rest, pool, pos);
    }
  }

  lemma YieldsRunThen(code: SymbolCode, rows: seq<Row>, i: nat, s: Segment, rest: Segments, pool: seq<Byte>, pos: nat)
    requires code.Valid() && Tiles(rows, i, Then(s, rest)) && SegOk(rows, i, s) && s.n > 0 && i + s.n <= |rows|
    requires Tiles(rows, i + s.n, rest)
    requires ReadSegment(code, pool, pos) == ManyRows(rows[i..i + s.n], pos + SegCost(code, rows, i, s))
    requires Run(code, pool, pos + SegCost(code, rows, i, s), |rows| - (i + s.n)) ==
             ManyRows(rows[i + s.n..], pos + SegCost(code, rows, i, s) + TotalCost(code, rows, i + s.n, rest))
    ensures Run(code, pool, pos, |rows| - i) == ManyRows(rows[i..], pos + TotalCost(code, rows, i, Then(s, rest)))
  {
    hide ReadSegment, Run, SegCost, SegOk, TotalCost, Tiles, SymbolCode.Valid;
    var p := pos + SegCost(code, rows, i, s);
    RunStep(code, rows, i, i + s.n, pool, pos, p, p + TotalCost(code, rows, i + s.n, rest));
    TotalCostParts(code, rows, i, s, rest);
  }

  lemma {:induction false} TilesParts(rows: seq<Row>, i: nat, s: Segment, rest: Segments)
    requires Tiles(rows, i, Then(s, rest))
    ensures SegOk(rows, i, s) && s.n > 0 && i + s.n <= |rows| && Tiles(rows, i + s.n, rest)
  {
  }

  lemma {:induction false} TotalCostParts(code: SymbolCode, rows: seq<Row>, i: nat, s: Segment, rest: Segments)
    requires Tiles(rows, i, Then(s, rest))
    ensures TotalCost(code, rows, i, Then(s, rest)) == SegCost(code, rows, i, s) + TotalCost(code, rows, i + s.n, rest)
  {
    hide SegCost, SegOk;
  }

  /** Decoding what a tiling emits gives back the rows, and stops exactly at its end. */
  lemma RunEmitted(code: SymbolCode, rows: seq<Row>, segs: Segments, pool: seq<Byte>, pos: nat)
    requires code.Valid() && Tiles(rows, 0, segs) && CellFits(code.rb, rows)
    requires Holds(pool, pos, EmitAll(code, rows, 0, segs))
    ensures Run(code, pool, pos, |rows|) == ManyRows(rows, pos + TotalCost(code, rows, 0, segs))
  {
    hide Run, Yields, HoldsAll, Holds, EmitAll, TotalCost, Tiles, SymbolCode.Valid;
    EmittedHolds(code, rows, 0, segs, pool, pos);
    HoldsYields(code, rows, 0, segs, pool, pos);
    YieldsRun(code, rows, 0, segs, pool, pos);
    assert rows[0..] == rows;
  }

  // ------------------------------------------------- the dynamic program

  /** Python's dp entries: infinity until reached. */
  datatype Cost = Fin(v: nat) | Inf

  datatype Choice = NoChoice | From(i: nat, seg: Segment)

  /** Every reached prefix records the segment it was reached by, and its cost. */
  ghost predicate Backed(code: SymbolCode, rows: seq<Row>, dp: seq<Cost>, choice: seq<Choice>, hi: nat) {
    && |dp| == |choice| == |rows| + 1
    && dp[0] == Fin(0)
    && forall j :: 0 < j <= |rows| && dp[j].Fin? ==>
         && choice[j].From?
         && choice[j].i < hi && choice[j].i < j
         && SegOk(rows, choice[j].i, choice[j].seg)
         && choice[j].i + choice[j].seg.n == j
         && dp[choice[j].i].Fin?
         && dp[j].v == dp[choice[j].i].v + SegCost(code, rows, choice[j].i, choice[j].seg)
  }

  /** Prefix i extended by segment s is no improvement on dp. */
  ghost predicate Settled(code: SymbolCode, rows: seq<Row>, dp: seq<Cost>, i: nat, s: Segment)
    requires |dp| == |rows| + 1 && i <= |rows|
  {
    dp[i].Fin? && SegOk(rows, i, s) ==> Within(dp[i + s.n], dp[i].v + SegCost(code, rows, i, s))
  }

  ghost predicate RelaxedAt(code: SymbolCode, rows: seq<Row>, dp: seq<Cost>, i: nat)
    requires |dp| == |rows| + 1 && i <= |rows|
  {
    forall s :: Settled(code, rows, dp, i, s)
  }

  predicate Within(c: Cost, bound: nat) {
    c.Fin? && c.v <= bound
  }

  /** After full relaxation, dp at the end bounds the cost of every tiling. */
  lemma {:induction false} RelaxedBoundsTilings(code: SymbolCode, rows: seq<Row>, dp: seq<Cost>, i: nat, segs: Segments)
    requires |dp| == |rows| + 1 && i <= |rows|
    requires RelaxedBelow(code, rows, dp, |rows|)
    requires dp[i].Fin? && Tiles(rows, i, segs)
    ensures Within(dp[|rows|], dp[i].v + TotalCost(code, rows, i, segs))
    decreases segs
  {
    match segs {
      case Done =>
      case Then(s, rest) =>
        assert RelaxedAt(code, rows, dp, i);
        assert Settled(code, rows, dp, i, s);
        RelaxedBoundsTilings(code, rows, dp, i + s.n, rest);
    }
  }

  /** Rows can always be tiled: one literal each. */
  lemma {:induction false} LiteralTiling(rows: seq<Row>, i: nat) returns (segs: Segments)
    requires i <= |rows|
    ensures Tiles(rows, i, segs)
    decreases |rows| - i
  {
    if i == |rows| {
      segs := Done;
    } else {
      var tail := LiteralTiling(rows, i + 1);
      segs := Then(Lit(1), tail);
    }
  }

  /** dp only ever improves, and prefixes up to i are settled. */
  ghost predicate Improved(before: seq<Cost>, after: seq<Cost>, i: nat) {
    && |before| == |after|
    && (forall k :: 0 <= k < |after| && before[k].Fin? ==> Within(after[k], before[k].v))
    && (forall k :: 0 <= k < |after| && k <= i ==> after[k] == before[k])
  }

  lemma ImprovedKeepsSettled(code: SymbolCode, rows: seq<Row>, before: seq<Cost>, after: seq<Cost>, i: nat, k: nat,
                             s: Segment)
    requires |before| == |rows| + 1 && k <= i && k <= |rows|
    requires Improved(before, after, i) && Settled(code, rows, before, k, s)
    ensures Settled(code, rows, after, k, s)
  {
  }

  /** Literals (or repeats) at i shorter than n are settled. */
  ghost predicate SettledBelow(code: SymbolCode, rows: seq<Row>, dp: seq<Cost>, i: nat, lit: bool, n: nat)
    requires |dp| == |rows| + 1 && i <= |rows|
  {
    forall m: nat :: m < n ==> Settled(code, rows, dp, i, if lit then Lit(m) else Rep(m))
  }

  lemma OneMoreSettled(code: SymbolCode, rows: seq<Row>, start: seq<Cost>, before: seq<Cost>, after: seq<Cost>,
                       i: nat, lit: bool, n: nat)
    requires |start| == |before| == |after| == |rows| + 1 && i <= |rows|
    requires Improved(start, before, i) && Improved(before, after, i)
    requires SettledBelow(code, rows, before, i, lit, n)
    requires Settled(code, rows, after, i, if lit then Lit(n) else Rep(n))
    ensures SettledBelow(code, rows, after, i, lit, n + 1)
    ensures Improved(start, after, i)
  {
    forall m: nat | m < n + 1 ensures Settled(code, rows, after, i, if lit then Lit(m) else Rep(m)) {
      if m < n {
        ImprovedKeepsSettled(code, rows, before, after, i, i, if lit then Lit(m) else Rep(m));
      }
    }
  }

  lemma BackedImproved(code: SymbolCode, rows: seq<Row>, dp: seq<Cost>, choice: seq<Choice>, i: nat, seg: Segment,
                       total: nat)
    requires |dp| == |choice| == |rows| + 1 && SegOk(rows, i, seg)
    requires dp[i].Fin? && total == dp[i].v + SegCost(code, rows, i, seg)
    requires Backed(code, rows, dp, choice, i + 1)
    ensures Backed(code, rows, dp[i + seg.n := Fin(total)], choice[i + seg.n := From(i, seg)], i + 1)
  {
  }

  lemma BackedLengths(code: SymbolCode, rows: seq<Row>, dp: seq<Cost>, choice: seq<Choice>, hi: nat)
    requires Backed(code, rows, dp, choice, hi)
    ensures |dp| == |choice| == |rows| + 1
  {
  }

  /** One candidate segment: keep it when it is strictly cheaper. */
  method Improve(code: SymbolCode, rows: seq<Row>, dp0: seq<Cost>, choice0: seq<Choice>, i: nat, seg: Segment,
                 total: nat)
    returns (dp: seq<Cost>, choice: seq<Choice>)
    requires |dp0| == |choice0| == |rows| + 1
    requires SegOk(rows, i, seg) && dp0[i].Fin? && total == dp0[i].v + SegCost(code, rows, i, seg)
    requires Backed(code, rows, dp0, choice0, i + 1)
    ensures Backed(code, rows, dp, choice, i + 1)
    ensures Improved(dp0, dp, i) && Settled(code, rows, dp, i, seg)
  {
    hide Backed, SegOk, SegCost, SymbolCode.Valid, Improved, Settled;
    BackedLengths(code, rows, dp0, choice0, i + 1);
    SegmentFits(rows, i, seg);
    dp, choice := dp0, choice0;
    var j := i + seg.n;
    if dp[j].Inf? || total < dp[j].v {
      BackedImproved(code, rows, dp, choice, i, seg, total);
      dp := dp[j := Fin(total)];
      choice := choice[j := From(i, seg)];
    }
    CheaperSettles(code, rows, dp0, dp, i, seg, total);
  }

  lemma SegmentFits(rows: seq<Row>, i: nat, seg: Segment)
    requires SegOk(rows, i, seg)
    ensures seg.n > 0 && i + seg.n <= |rows|
  {
  }

  lemma CheaperSettles(code: SymbolCode, rows: seq<Row>, dp0: seq<Cost>, dp: seq<Cost>, i: nat, seg: Segment,
                       total: nat)
    requires |dp0| == |rows| + 1 && SegOk(rows, i, seg) && seg.n > 0 && i + seg.n <= |rows|
    requires dp0[i].Fin? && total == dp0[i].v + SegCost(code, rows, i, seg)
    requires dp == if dp0[i + seg.n].Inf? || total < dp0[i + seg.n].v then dp0[i + seg.n := Fin(total)] else dp0
    ensures Improved(dp0, dp, i) && Settled(code, rows, dp, i, seg)
  {
    hide SegOk, SegCost;
  }

  /** The table while the literals (or repeats) from i are being tried. */
  ghost predicate Trying(code: SymbolCode, rows: seq<Row>, start: seq<Cost>, dp: seq<Cost>, choice: seq<Choice>,
                         i: nat, lit: bool, n: nat) {
    && |start| == |dp| == |rows| + 1 && i <= |rows|
    && dp[i].Fin? && dp[i] == start[i]
    && Backed(code, rows, dp, choice, i + 1)
    && Improved(start, dp, i)
    && SettledBelow(code, rows, dp, i, lit, n)
  }

  method Try(code: SymbolCode, rows: seq<Row>, dp0: seq<Cost>, choice0: seq<Choice>, i: nat, lit: bool, n: nat,
             total: nat, ghost start: seq<Cost>)
    returns (dp: seq<Cost>, choice: seq<Choice>)
    requires Trying(code, rows, start, dp0, choice0, i, lit, n)
    requires SegOk(rows, i, if lit then Lit(n) else Rep(n))
    requires total == start[i].v + SegCost(code, rows, i, if lit then Lit(n) else Rep(n))
    ensures Trying(code, rows, start, dp, choice, i, lit, n + 1)
  {
    dp, choice := Improve(code, rows, dp0, choice0, i, if lit then Lit(n) else Rep(n), total);
    OneMoreSettled(code, rows, start, dp0, dp, i, lit, n);
  }

  /** Every literal run from i: lengths 1 to 128. */
  method RelaxLiterals(code: SymbolCode, rows: seq<Row>, dp0: seq<Cost>, choice0: seq<Choice>, i: nat)
    returns (dp: seq<Cost>, choice: seq<Choice>)
    requires |dp0| == |choice0| == |rows| + 1 && i < |rows| && dp0[i].Fin?
    requires Backed(code, rows, dp0, choice0, i + 1)
    ensures Trying(code, rows, dp0, dp, choice, i, true, 129)
  {
    dp, choice := dp0, choice0;
    var base := dp[i].v + 1;
    var runCost := 0;
    var n, j := 0, i;
    NothingTried(code, rows, dp, choice, i);
    while n < 128 && j < |rows|
      invariant 0 <= n <= 128 && j == i + n <= |rows|
      invariant runCost == SumCost(code, rows, i, j)
      invariant Trying(code, rows, dp0, dp, choice, i, true, n + 1)
    {
      runCost := runCost + code.Cost(rows[j]);
      n, j := n + 1, j + 1;
      LiteralCost(code, rows, i, n, j, runCost);
      dp, choice := Try(code, rows, dp, choice, i, true, n, base + runCost, dp0);
    }
    NoLongerLiterals(code, rows, dp, i, n);
  }

  lemma NothingTried(code: SymbolCode, rows: seq<Row>, dp: seq<Cost>, choice: seq<Choice>, i: nat)
    requires |dp| == |rows| + 1 && i <= |rows| && dp[i].Fin?
    requires Backed(code, rows, dp, choice, i + 1)
    ensures Trying(code, rows, dp, dp, choice, i, true, 1)
  {
  }

  lemma LiteralCost(code: SymbolCode, rows: seq<Row>, i: nat, n: nat, j: nat, cost: nat)
    requires 1 <= n <= 128 && j == i + n <= |rows|
    requires cost == SumCost(code, rows, i, j - 1) + code.Cost(rows[j - 1])
    ensures SumCost(code, rows, i, j) == cost
    ensures SegCost(code, rows, i, Lit(n)) == 1 + cost
  {
  }

  lemma NoLongerLiterals(code: SymbolCode, rows: seq<Row>, dp: seq<Cost>, i: nat, n: nat)
    requires |dp| == |rows| + 1 && i <= |rows|
    requires i + n == |rows| || n == 128
    requires SettledBelow(code, rows, dp, i, true, n + 1)
    ensures SettledBelow(code, rows, dp, i, true, 129)
  {
  }

  /** Every repeat run from i: lengths 2 to 129, while the rows stay equal. */
  method RelaxRepeats(code: SymbolCode, rows: seq<Row>, dp0: seq<Cost>, choice0: seq<Choice>, i: nat)
    returns (dp: seq<Cost>, choice: seq<Choice>)
    requires |dp0| == |choice0| == |rows| + 1 && i < |rows| && dp0[i].Fin?
    requires Backed(code, rows, dp0, choice0, i + 1)
    ensures Trying(code, rows, dp0, dp, choice, i, false, 130)
  {
    dp, choice := dp0, choice0;
    var base := dp[i].v + 1;
    var maxRun := EqualRun(rows, i);
    if maxRun >= 2 {
      var repTotal := base + code.Cost(rows[i]);
      for n := 2 to maxRun + 1
        invariant Trying(code, rows, dp0, dp, choice, i, false, n)
      {
        dp, choice := Try(code, rows, dp, choice, i, false, n, repTotal, dp0);
      }
    }
  }

  /** Length of the run of equal rows at i, capped at the longest repeat. */
  method EqualRun(rows: seq<Row>, i: nat) returns (maxRun: nat)
    requires i < |rows|
    ensures maxRun >= 1
    ensures forall n: nat | n >= 2 :: SegOk(rows, i, Rep(n)) <==> n <= maxRun
  {
    maxRun := 1;
    while maxRun < 129 && maxRun < |rows| - i && rows[i + maxRun] == rows[i]
      invariant 1 <= maxRun <= 129 && maxRun <= |rows| - i
      invariant forall k :: i <= k < i + maxRun ==> rows[k] == rows[i]
    {
      maxRun := maxRun + 1;
    }
  }

  /** The body of the main loop: extend prefix i every way. */
  method RelaxFrom(code: SymbolCode, rows: seq<Row>, dp0: seq<Cost>, choice0: seq<Choice>, i: nat)
    returns (dp: seq<Cost>, choice: seq<Choice>)
    requires |dp0| == |choice0| == |rows| + 1 && i < |rows|
    requires Backed(code, rows, dp0, choice0, i)
    ensures Backed(code, rows, dp, choice, i + 1)
    ensures Improved(dp0, dp, i) && RelaxedAt(code, rows, dp, i)
  {
    if dp0[i].Inf? {
      return dp0, choice0;
    }
    var dp1, choice1 := RelaxLiterals(code, rows, dp0, choice0, i);
    dp, choice := RelaxRepeats(code, rows, dp1, choice1, i);
    AllSettled(code, rows, dp0, dp1, dp, i);
  }

  /** dp and choice once every prefix has been extended every way. */
  method FillTable(code: SymbolCode, rows: seq<Row>) returns (dp: seq<Cost>, choice: seq<Choice>)
    ensures Backed(code, rows, dp, choice, |rows|)
    ensures RelaxedBelow(code, rows, dp, |rows|)
  {
    var n := |rows|;
    dp := seq(n + 1, _ => Inf)[0 := Fin(0)];
    choice := seq(n + 1, _ => NoChoice);
    for i := 0 to n
      invariant Backed(code, rows, dp, choice, i)
      invariant RelaxedBelow(code, rows, dp, i)
    {
      ghost var before := dp;
      dp, choice := RelaxFrom(code, rows, dp, choice, i);
      OneMoreRelaxed(code, rows, before, dp, i);
    }
  }

  ghost predicate RelaxedBelow(code: SymbolCode, rows: seq<Row>, dp: seq<Cost>, i: nat)
    requires |dp| == |rows| + 1 && i <= |rows|
  {
    forall k :: 0 <= k < i ==> RelaxedAt(code, rows, dp, k)
  }

  lemma OneMoreRelaxed(code: SymbolCode, rows: seq<Row>, before: seq<Cost>, after: seq<Cost>, i: nat)
    requires |before| == |after| == |rows| + 1 && i < |rows|
    requires RelaxedBelow(code, rows, before, i) && Improved(before, after, i) && RelaxedAt(code, rows, after, i)
    ensures RelaxedBelow(code, rows, after, i + 1)
  {
    forall k | 0 <= k < i ensures RelaxedAt(code, rows, after, k) {
      KeepsRelaxed(code, rows, before, after, i, k);
    }
  }

  lemma AllSettled(code: SymbolCode, rows: seq<Row>, before: seq<Cost>, mid: seq<Cost>, after: seq<Cost>, i: nat)
    requires |before| == |mid| == |after| == |rows| + 1 && i <= |rows|
    requires Improved(before, mid, i) && Improved(mid, after, i)
    requires SettledBelow(code, rows, mid, i, true, 129) && SettledBelow(code, rows, after, i, false, 130)
    ensures Improved(before, after, i) && RelaxedAt(code, rows, after, i)
  {
    forall s ensures Settled(code, rows, after, i, s) {
      if SegOk(rows, i, s) {
        match s {
          case Lit(m) => ImprovedKeepsSettled(code, rows, mid, after, i, i, if true then Lit(m) else Rep(m));
          case Rep(m) => assert Settled(code, rows, after, i, if false then Lit(m) else Rep(m));
        }
      }
    }
  }

  lemma KeepsRelaxed(code: SymbolCode, rows: seq<Row>, before: seq<Cost>, after: seq<Cost>, i: nat, k: nat)
    requires |before| == |rows| + 1 && k <= i && i <= |rows|
    requires Improved(before, after, i) && RelaxedAt(code, rows, before, k)
    ensures RelaxedAt(code, rows, after, k)
  {
    forall s ensures Settled(code, rows, after, k, s) {
      ImprovedKeepsSettled(code, rows, before, after, i, k, s);
    }
  }

  /** Walk the recorded choices back from the end; the segments come out in order. */
  method Reconstruct(code: SymbolCode, rows: seq<Row>, dp: seq<Cost>, choice: seq<Choice>) returns (segs: Segments)
    requires Backed(code, rows, dp, choice, |rows|)
    requires dp[|rows|].Fin?
    ensures Tiles(rows, 0, segs) && TotalCost(code, rows, 0, segs) == dp[|rows|].v
  {
    var j := |rows|;
    segs := Done;
    while j > 0
      invariant 0 <= j <= |rows| && dp[j].Fin?
      invariant Tiles(rows, j, segs)
      invariant dp[j].v + TotalCost(code, rows, j, segs) == dp[|rows|].v
    {
      var From(i, seg) := choice[j];
      segs := Then(seg, segs);
      j := i;
    }
  }

  /** Append the symbols of n rows from i on. */
  method AppendRows(code: SymbolCode, rows: seq<Row>, i: nat, n: nat, out: seq<Byte>) returns (longer: seq<Byte>)
    requires code.Valid() && i + n <= |rows|
    ensures longer == out + EmitRows(code, rows, i, i + n)
  {
    longer := out;
    var j := i;
    while j < i + n
      invariant i <= j <= i + n
      invariant longer == out + EmitRows(code, rows, i, j)
    {
      longer := longer + code.Emit(rows[j]);
      j := j + 1;
    }
  }

  /** Append one segment: its control byte, then its symbols. */
  method AppendSegment(code: SymbolCode, rows: seq<Row>, i: nat, s: Segment, out: seq<Byte>) returns (longer: seq<Byte>)
    requires code.Valid() && SegOk(rows, i, s)
    ensures longer == out + EmitSegment(code, rows, i, s)
  {
    match s {
      case Lit(n) =>
        longer := AppendRows(code, rows, i, n, out + [n - 1]);
        assert longer == out + ([n - 1] + EmitRows(code, rows, i, i + n));
      case Rep(n) =>
        longer := out + [0x80 + (n - 2)] + code.Emit(rows[i]);
        assert longer == out + ([0x80 + (n - 2)] + code.Emit(rows[i]));
    }
  }

  /** All segments in order. */
  method EmitBody(code: SymbolCode, rows: seq<Row>, segs: Segments) returns (out: seq<Byte>)
    requires code.Valid() && Tiles(rows, 0, segs)
    ensures out == EmitAll(code, rows, 0, segs)
  {
    hide EmitSegment, SegOk, SymbolCode.Valid;
    out := [];
    var i, rest := 0, segs;
    while rest.Then?
      invariant 0 <= i <= |rows| && Tiles(rows, i, rest)
      invariant out + EmitAll(code, rows, i, rest) == EmitAll(code, rows, 0, segs)
      decreases rest
    {
      TilesParts(rows, i, rest.head, rest.tail);
      EmitHead(code, rows, i, rest, out);
      out := AppendSegment(code, rows, i, rest.head, out);
      i, rest := i + rest.head.n, rest.tail;
    }
  }

  lemma EmitHead(code: SymbolCode, rows: seq<Row>, i: nat, segs: Segments, out: seq<Byte>)
    requires code.Valid() && Tiles(rows, i, segs) && segs.Then?
    ensures out + EmitAll(code, rows, i, segs)
         == out + EmitSegment(code, rows, i, segs.head) + EmitAll(code, rows, i + segs.head.n, segs.tail)
  {
  }

  /** packbits_encode: the body decodes to the rows wherever it stands in a pool,
      and no stream that decodes to the same rows is shorter. */
  method Encode(code: SymbolCode, rows: seq<Row>) returns (body: seq<Byte>)
    requires code.Valid() && CellFits(code.rb, rows)
    ensures forall pool, pos: nat :: Holds(pool, pos, body) ==>
              Run(code, pool, pos, |rows|) == ManyRows(rows, pos + |body|)
    ensures ShortestFor(code, rows, |body|)
  {
    if |rows| == 0 {
      return [];
    }
    hide Run, Holds, EmitAll, TotalCost, ShortestFor, SymbolCode.Valid, CellFits;
    var dp, choice := FillTable(code, rows);
    ghost var any := LiteralTiling(rows, 0);
    RelaxedBoundsTilings(code, rows, dp, 0, any);
    var segs := Reconstruct(code, rows, dp, choice);
    body := EmitBody(code, rows, segs);
    EmitAllLength(code, rows, 0, segs);
    forall pool, pos: nat | Holds(pool, pos, body)
      ensures Run(code, pool, pos, |rows|) == ManyRows(rows, pos + |body|)
    {
      RunEmitted(code, rows, segs, pool, pos);
    }
    RelaxedIsShortest(code, rows, dp);
  }

  /** No stream at any place in any pool decodes to `rows` in fewer than n bytes. */
  ghost predicate ShortestFor(code: SymbolCode, rows: seq<Row>, n: nat)
    requires code.Valid()
  {
    forall pool, pos: nat :: YieldsRows(code, pool, pos, rows) ==> RunEnd(code, pool, pos, rows) >= pos + n
  }

  lemma RelaxedIsShortest(code: SymbolCode, rows: seq<Row>, dp: seq<Cost>)
    requires code.Valid() && |dp| == |rows| + 1
    requires dp[0] == Fin(0) && dp[|rows|].Fin?
    requires RelaxedBelow(code, rows, dp, |rows|)
    ensures ShortestFor(code, rows, dp[|rows|].v)
  {
    assert rows[0..] == rows;
    forall pool, pos: nat | YieldsRows(code, pool, pos, rows)
      ensures RunEnd(code, pool, pos, rows) >= pos + dp[|rows|].v
    {
      var segs := RunIsATiling(code, pool, pos, rows, 0);
      RelaxedBoundsTilings(code, rows, dp, 0, segs);
    }
  }
}
