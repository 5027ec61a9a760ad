/** Codepoint ranges: how the generator groups codepoints (contiguous_ranges and
    merge_ranges of tools/gen_terminus.py) and how the renderer finds one again
    (lookup_offset of components/font/font_renderer.c). */
module FontRanges {
  import opened FontTypes

  datatype Span = Span(lo: Codepoint, hi: Codepoint)

  predicate InSpan(s: Span, c: int) {
    s.lo <= c <= s.hi
  }

  predicate Covered(spans: seq<Span>, c: int) {
    exists k :: 0 <= k < |spans| && InSpan(spans[k], c)
  }

  /** Ascending, with more than `gap` codepoints missing between neighbours. */
  predicate Apart(spans: seq<Span>, gap: nat) {
    && (forall k :: 0 <= k < |spans| ==> spans[k].lo <= spans[k].hi)
    && (forall j, k :: 0 <= j < k < |spans| ==> spans[j].hi + gap + 1 < spans[k].lo)
  }

  predicate Ascending(cps: seq<Codepoint>) {
    forall i, j :: 0 <= i < j < |cps| ==> cps[i] < cps[j]
  }

  // --------------------------------------------------------------- sorting

  /** The members of s below n, smallest first. */
  function Below(s: set<Codepoint>, n: nat): (cps: seq<Codepoint>)
    requires n <= 0x1_0000
    ensures Ascending(cps)
    ensures forall c :: c in cps <==> c in s && c < n
  {
    if n == 0 then []
    else
      var rest := Below(s, n - 1);
      assert forall i :: 0 <= i < |rest| ==> rest[i] in rest;
      if n - 1 in s then rest + [n - 1] else rest
  }

  /** Python's sorted() of a set of codepoints. */
  function Sorted(s: set<Codepoint>): (cps: seq<Codepoint>)
    ensures Ascending(cps)
    ensures forall c :: c in cps <==> c in s
  {
    Below(s, 0x1_0000)
  }

  // ---------------------------------------------------------- generator

  /** What the ranges built so far and the open one say about the codepoints read. */
  ghost predicate Grouped(cps: seq<Codepoint>, n: nat, out: seq<Span>, run: Span) {
    && 0 < n <= |cps| && run.hi == cps[n - 1]
    && Apart(out + [run], 0)
    && forall c :: Covered(out + [run], c) <==> c in cps[..n]
  }

  lemma CoveredPush(spans: seq<Span>, s: Span, c: int)
    ensures Covered(spans + [s], c) <==> Covered(spans, c) || InSpan(s, c)
  {
    var all := spans + [s];
    if Covered(spans, c) {
      var k :| 0 <= k < |spans| && InSpan(spans[k], c);
      assert all[k] == spans[k];
    }
    if InSpan(s, c) {
      assert all[|spans|] == s;
    }
    if Covered(all, c) {
      var k :| 0 <= k < |all| && InSpan(all[k], c);
      assert k < |spans| ==> all[k] == spans[k];
    }
  }

  lemma GroupedNext(cps: seq<Codepoint>, n: nat, out: seq<Span>, run: Span)
    requires Ascending(cps) && n < |cps| && Grouped(cps, n, out, run)
    ensures cps[n] == run.hi + 1 ==> Grouped(cps, n + 1, out, Span(run.lo, cps[n]))
    ensures cps[n] != run.hi + 1 ==> Grouped(cps, n + 1, out + [run], Span(cps[n], cps[n]))
  {
    var c0 := cps[n];
    assert c0 > run.hi;
    assert cps[..n + 1] == cps[..n] + [c0];
    assert (out + [run])[|out|] == run;
    if c0 == run.hi + 1 {
      var wide := Span(run.lo, c0);
      forall c ensures Covered(out + [wide], c) <==> c in cps[..n + 1] {
        CoveredPush(out, wide, c);
        CoveredPush(out, run, c);
      }
      forall j | 0 <= j < |out| ensures (out + [wide])[j].hi + 1 < wide.lo {
        assert (out + [run])[j] == out[j];
      }
      assert forall k :: 0 <= k < |out| ==> (out + [run])[k] == out[k];
    } else {
      var more := out + [run];
      var one := Span(c0, c0);
      forall c ensures Covered(more + [one], c) <==> c in cps[..n + 1] {
        CoveredPush(more, one, c);
      }
    }
  }

  /** contiguous_ranges: maximal runs of consecutive codepoints. */
  method ContiguousRanges(cps: seq<Codepoint>) returns (out: seq<Span>)
    requires |cps| > 0 && Ascending(cps)
    ensures Apart(out, 0) && |out| > 0
    ensures forall c :: Covered(out, c) <==> c in cps
  {
    out := [];
    var run := Span(cps[0], cps[0]);
    CoverOne(cps, run);
    for n := 1 to |cps|
      invariant Grouped(cps, n, out, run)
    {
      GroupedNext(cps, n, out, run);
      if cps[n] == run.hi + 1 {
        run := Span(run.lo, cps[n]);
      } else {
        out := out + [run];
        run := Span(cps[n], cps[n]);
      }
    }
    assert cps[..|cps|] == cps;
    out := out + [run];
  }

  lemma CoverOne(cps: seq<Codepoint>, run: Span)
    requires |cps| > 0 && run == Span(cps[0], cps[0])
    ensures Grouped(cps, 1, [], run)
  {
    assert [] + [run] == [run];
    forall c ensures Covered([run], c) <==> c in cps[..1] {
      CoveredPush([], run, c);
    }
  }

  const MAX_MERGE_GAP := 3

  /** c lies between two neighbouring ranges at most three codepoints apart. */
  ghost predicate InSmallGap(spans: seq<Span>, c: int) {
    exists k: nat :: GapBelow(spans, k, c)
  }

  ghost predicate Merged(spans: seq<Span>, n: nat, out: seq<Span>) {
    && 0 < n <= |spans| && |out| > 0
    && out[|out| - 1].hi == spans[n - 1].hi
    && Apart(out, MAX_MERGE_GAP)
    && forall c :: Covered(out, c) <==> Covered(spans[..n], c) || InSmallGap(spans[..n], c)
  }

  lemma MergedNext(spans: seq<Span>, n: nat, out: seq<Span>)
    requires Apart(spans, 0) && n < |spans| && Merged(spans, n, out)
    ensures var last := out[|out| - 1];
            if spans[n].lo - last.hi - 1 <= MAX_MERGE_GAP
            then Merged(spans, n + 1, out[..|out| - 1] + [Span(last.lo, spans[n].hi)])
            else Merged(spans, n + 1, out + [spans[n]])
  {
    var last := out[|out| - 1];
    var next := spans[n];
    var front := out[..|out| - 1];
    assert front + [last] == out;
    assert spans[..n + 1] == spans[..n] + [next];
    assert last.hi == spans[n - 1].hi;
    forall c ensures InSmallGap(spans[..n + 1], c) <==>
                     InSmallGap(spans[..n], c) || (last.hi < c < next.lo && next.lo - last.hi - 1 <= MAX_MERGE_GAP)
    {
      GapPush(spans, n, c);
    }
    if next.lo - last.hi - 1 <= MAX_MERGE_GAP {
      var wide := Span(last.lo, next.hi);
      forall c ensures Covered(front + [wide], c) <==> Covered(spans[..n + 1], c) || InSmallGap(spans[..n + 1], c) {
        CoveredPush(front, wide, c);
        CoveredPush(front, last, c);
        CoveredPush(spans[..n], next, c);
      }
      ApartWiden(front, last, wide);
    } else {
      forall c ensures Covered(out + [next], c) <==> Covered(spans[..n + 1], c) || InSmallGap(spans[..n + 1], c) {
        CoveredPush(out, next, c);
        CoveredPush(spans[..n], next, c);
      }
    }
  }

  lemma ApartWiden(front: seq<Span>, last: Span, wide: Span)
    requires Apart(front + [last], MAX_MERGE_GAP) && wide.lo == last.lo && last.hi <= wide.hi
    ensures Apart(front + [wide], MAX_MERGE_GAP)
  {
    var a, b := front + [last], front + [wide];
    assert forall k :: 0 <= k < |front| ==> a[k] == b[k];
    assert a[|front|] == last && b[|front|] == wide;
    forall j, k | 0 <= j < k < |b| ensures b[j].hi + MAX_MERGE_GAP + 1 < b[k].lo {
      assert a[j].hi + MAX_MERGE_GAP + 1 < a[k].lo;
    }
  }

  /** c lies in a small gap just below range k. */
  predicate GapBelow(spans: seq<Span>, k: nat, c: int) {
    0 < k < |spans| && spans[k - 1].hi < c < spans[k].lo && spans[k].lo - spans[k - 1].hi - 1 <= 3
  }

  lemma GapPush(spans: seq<Span>, n: nat, c: int)
    requires 0 < n < |spans|
    ensures InSmallGap(spans[..n + 1], c) <==> InSmallGap(spans[..n], c) || GapBelow(spans, n, c)
  {
    var a, b := spans[..n], spans[..n + 1];
    assert forall k: nat :: k < n ==> a[k] == b[k] == spans[k];
    if InSmallGap(b, c) {
      var k: nat :| GapBelow(b, k, c);
      if k < n {
        assert GapBelow(a, k, c);
      }
    }
    if InSmallGap(a, c) {
      var k: nat :| GapBelow(a, k, c);
      assert GapBelow(b, k, c);
    }
    if GapBelow(spans, n, c) {
      assert GapBelow(b, n, c);
    }
  }

  /** merge_ranges: exactly the covered codepoints and those in small gaps, in ranges
      that cannot be merged further. */
  method MergeRanges(spans: seq<Span>) returns (out: seq<Span>)
    requires |spans| > 0 && Apart(spans, 0)
    ensures Apart(out, 3)
    ensures forall c :: Covered(out, c) <==> Covered(spans, c) || InSmallGap(spans, c)
  {
    out := [spans[0]];
    assert spans[..1] == [spans[0]];
    for n := 1 to |spans|
      invariant Merged(spans, n, out)
    {
      MergedNext(spans, n, out);
      var last := out[|out| - 1];
      if spans[n].lo - last.hi - 1 <= MAX_MERGE_GAP {
        out := out[..|out| - 1] + [Span(last.lo, spans[n].hi)];
      } else {
        out := out + [spans[n]];
      }
    }
    assert spans[..|spans|] == spans;
  }

  // ------------------------------------------------------------ renderer

  /** One FontRange: a span and one offset per codepoint in it. */
  datatype Range = Range(span: Span, idx: seq<nat>)

  function Spans(ranges: seq<Range>): (spans: seq<Span>)
    ensures |spans| == |ranges|
  {
    seq(|ranges|, k requires 0 <= k < |ranges| => ranges[k].span)
  }

  predicate ValidRanges(ranges: seq<Range>) {
    && Apart(Spans(ranges), 0)
    && forall k :: 0 <= k < |ranges| ==> |ranges[k].idx| == ranges[k].span.hi - ranges[k].span.lo + 1
  }

  /** Reference lookup: the first range that contains cp. */
  function Lookup(ranges: seq<Range>, cp: Codepoint): (r: Option<nat>) {
    if ranges == [] then None
    else if InSpan(ranges[0].span, cp) && cp - ranges[0].span.lo < |ranges[0].idx| then
      Some(ranges[0].idx[cp - ranges[0].span.lo])
    else Lookup(ranges[1..], cp)
  }

  lemma {:induction false} LookupHit(ranges: seq<Range>, cp: Codepoint, k: nat)
    requires ValidRanges(ranges) && k < |ranges| && InSpan(ranges[k].span, cp)
    ensures Lookup(ranges, cp) == Some(ranges[k].idx[cp - ranges[k].span.lo])
  {
    assert InSpan(Spans(ranges)[k], cp);
    if k > 0 {
      assert Spans(ranges)[0].hi < Spans(ranges)[k].lo;
      ValidTail(ranges);
      LookupHit(ranges[1..], cp, k - 1);
    }
  }

  lemma ValidTail(ranges: seq<Range>)
    requires ValidRanges(ranges) && |ranges| > 0
    ensures ValidRanges(ranges[1..])
  {
    assert forall k :: 0 <= k < |ranges| - 1 ==> Spans(ranges[1..])[k] == Spans(ranges)[k + 1];
  }

  lemma {:induction false} LookupMiss(ranges: seq<Range>, cp: Codepoint)
    requires !Covered(Spans(ranges), cp)
    ensures Lookup(ranges, cp) == None
  {
    if ranges != [] {
      assert !InSpan(Spans(ranges)[0], cp);
      forall k | 0 <= k < |ranges| - 1 ensures !InSpan(Spans(ranges[1..])[k], cp) {
        assert Spans(ranges[1..])[k] == Spans(ranges)[k + 1];
      }
      LookupMiss(ranges[1..], cp);
    }
  }

  lemma LookupCovered(ranges: seq<Range>, cp: Codepoint)
    requires ValidRanges(ranges)
    ensures Lookup(ranges, cp).Some? <==> Covered(Spans(ranges), cp)
  {
    if Covered(Spans(ranges), cp) {
      var k :| 0 <= k < |ranges| && InSpan(Spans(ranges)[k], cp);
      LookupHit(ranges, cp, k);
    } else {
      LookupMiss(ranges, cp);
    }
  }

  lemma LookupFinds(ranges: seq<Range>, cp: Codepoint) returns (k: nat)
    requires ValidRanges(ranges) && Covered(Spans(ranges), cp)
    ensures k < |ranges| && InSpan(ranges[k].span, cp)
    ensures Lookup(ranges, cp) == Some(ranges[k].idx[cp - ranges[k].span.lo])
  {
    k :| 0 <= k < |ranges| && InSpan(Spans(ranges)[k], cp);
    LookupHit(ranges, cp, k);
  }

  /** lookup_offset: the binary search agrees with scanning the ranges in order. */
  method LookupOffset(ranges: seq<Range>, cp: Codepoint) returns (r: Option<nat>)
    requires ValidRanges(ranges)
    ensures r == Lookup(ranges, cp)
  {
    var lo, hi := 0, |ranges| - 1;
    while lo <= hi
      invariant 0 <= lo <= hi + 1 <= |ranges|
      invariant forall k :: 0 <= k < |ranges| && !(lo <= k <= hi) ==> !InSpan(Spans(ranges)[k], cp)
    {
      var mid := (lo + hi) / 2;
      assert Spans(ranges)[mid] == ranges[mid].span;
      if cp < ranges[mid].span.lo {
        hi := mid - 1;
      } else if cp > ranges[mid].span.hi {
        lo := mid + 1;
      } else {
        LookupHit(ranges, cp, mid);
        return Some(ranges[mid].idx[cp - ranges[mid].span.lo]);
      }
    }
    LookupMiss(ranges, cp);
    r := None;
  }
}
