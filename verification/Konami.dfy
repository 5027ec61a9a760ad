/** The cheat-code matcher that rides along with HOME's arrow keys
    (components/cyberdeck_app/app_home.c). */
module Konami {
  import opened Tiles

  const CODE: seq<Arrow> := [Up, Up, Down, Down, Left, Right, Left, Right]

  // ------------------------------------------------------------- matcher

  /** One arrow: advance, or fall back to the overlapping UP prefix; completing the code
      fires and starts over. */
  function Step(idx: nat, k: Arrow): (r: (nat, bool))
    requires idx < 8
  {
    var next := if k == CODE[idx] then idx + 1 else if k == Up then (if idx == 2 then 2 else 1) else 0;
    if next == 8 then (0, true) else (next, false)
  }

  /** HOME's progress counter over one arrow after another; `fires` counts the cheats. */
  class Home {
    var konIdx: nat
    var fires: nat
    ghost var keys: seq<Arrow>

    /** The counter is the longest suffix of everything pressed that is a proper prefix
        of the code, and the cheat fired at each arrow that completed it. */
    ghost predicate Valid()
      reads this
    {
      konIdx < 8 && IsLongest(keys, konIdx) && fires == Completions(keys)
    }

    constructor ()
      ensures Valid() && keys == []
    {
      konIdx, fires, keys := 0, 0, [];
      new;
      EmptyLongest();
    }

    /** The arrow keys of home_input. */
    method Press(k: Arrow) returns (cheat: bool)
      requires Valid()
      modifies this
      ensures Valid() && keys == old(keys) + [k]
      ensures cheat <==> |keys| >= 8 && keys[|keys| - 8..] == [Up, Up, Down, Down, Left, Right, Left, Right]
    {
      hide IsLongest, EndsWith, Completions;
      StepFollows(keys, konIdx, k);
      WholeCode(keys + [k]);
      cheat := false;
      if k == CODE[konIdx] {
        konIdx := konIdx + 1;
      } else if k == Up {
        konIdx := if konIdx == 2 then 2 else 1;
      } else {
        konIdx := 0;
      }
      if konIdx == 8 {
        konIdx := 0;
        cheat := true;
        fires := fires + 1;
      }
      keys := keys + [k];
      CompletionsGrow(keys[..|keys| - 1], k);
      assert keys[..|keys| - 1] == old(keys);
    }
  }

  // ----------------------------------------------------------- meaning

  predicate EndsWith(s: seq<Arrow>, t: seq<Arrow>) {
    |t| <= |s| && s[|s| - |t|..] == t
  }

  lemma WholeCode(s: seq<Arrow>)
    ensures EndsWith(s, CODE) <==>
            |s| >= 8 && s[|s| - 8..] == [Up, Up, Down, Down, Left, Right, Left, Right]
  {
  }

  /** The stream ends in the first n arrows of the code. */
  predicate Progress(s: seq<Arrow>, n: nat) {
    n <= 8 && EndsWith(s, CODE[..n])
  }

  predicate IsLongest(s: seq<Arrow>, n: nat) {
    n < 8 && Progress(s, n) && forall m :: n < m < 8 ==> !Progress(s, m)
  }

  /** How many prefixes of the stream end in the whole code. */
  function Completions(s: seq<Arrow>): nat {
    if s == [] then 0 else Completions(s[..|s| - 1]) + (if EndsWith(s, CODE) then 1 else 0)
  }

  lemma CompletionsGrow(s: seq<Arrow>, k: Arrow)
    ensures Completions(s + [k]) == Completions(s) + (if EndsWith(s + [k], CODE) then 1 else 0)
  {
    assert (s + [k])[..|s + [k]| - 1] == s;
  }

  lemma EmptyLongest()
    ensures IsLongest([], 0)
  {
    assert CODE[..0] == [];
  }

  /** A suffix of s + [k] that is m + 1 long is a suffix of s of length m, and k. */
  lemma ProgressGrows(s: seq<Arrow>, k: Arrow, m: nat)
    requires m < 8
    ensures Progress(s + [k], m + 1) <==> Progress(s, m) && k == CODE[m]
  {
    var t := s + [k];
    assert CODE[..m + 1] == CODE[..m] + [CODE[m]];
    if m <= |s| {
      assert t[|t| - (m + 1)..] == s[|s| - m..] + [k];
    }
    if Progress(t, m + 1) {
      assert s[|s| - m..] == (s[|s| - m..] + [k])[..m] == (CODE[..m] + [CODE[m]])[..m] == CODE[..m];
      assert (s[|s| - m..] + [k])[m] == (CODE[..m] + [CODE[m]])[m];
    }
  }

  lemma ProgressNone(s: seq<Arrow>)
    ensures Progress(s, 0)
  {
    assert CODE[..0] == [];
  }

  /** Two suffixes of the same stream: the shorter is a suffix of the longer. So when the
      stream is n arrows into the code, it is m < n arrows in exactly if the code's first
      m arrows end its first n. */
  lemma Overlap(s: seq<Arrow>, n: nat, m: nat)
    requires m <= n <= 8 && Progress(s, n)
    ensures Progress(s, m) <==> CODE[n - m..n] == CODE[..m]
  {
    var p := CODE[..n];
    assert s[|s| - n..] == p;
    assert s[|s| - m..] == s[|s| - n..][n - m..];
    assert p[n - m..] == CODE[n - m..n];
  }

  /** How far the code overlaps itself: after n arrows only UP UP can also be one UP. */
  lemma SelfOverlap(n: nat, m: nat)
    requires 0 < m < n < 8
    ensures CODE[n - m..n] == CODE[..m] <==> n == 2 && m == 1
  {
    var tail := CODE[n - m..n];
    assert tail[0] == CODE[n - m] && CODE[..m][0] == Up;
    if m > 1 {
      assert tail[1] == CODE[n - m + 1] && CODE[..m][1] == Up;
    }
    if n == 2 && m == 1 {
      assert tail == CODE[..1];
    }
  }

  /** One arrow takes the longest match of the stream to the longest match of the longer
      stream, and completes the code exactly when the stream then ends in all of it. */
  lemma StepFollows(s: seq<Arrow>, idx: nat, k: Arrow)
    requires IsLongest(s, idx)
    ensures Step(idx, k).1 <==> EndsWith(s + [k], CODE)
    ensures IsLongest(s + [k], Step(idx, k).0)
  {
    var t := s + [k];
    var (next, fired) := Step(idx, k);
    assert CODE[..8] == CODE;
    ProgressGrows(s, k, 7);
    ProgressNone(t);
    forall m | 0 <= m < 8 ensures Progress(t, m) ==> m <= next {
      if m > 0 && Progress(t, m) {
        ProgressGrows(s, k, m - 1);
        ReachedFrom(s, idx, k, m - 1);
      }
    }
    if next > 0 {
      ProgressGrows(s, k, next - 1);
      ReachedBack(s, idx, k);
    }
  }

  /** Whatever shorter match k extends, the matcher finds it. */
  lemma ReachedFrom(s: seq<Arrow>, idx: nat, k: Arrow, m: nat)
    requires IsLongest(s, idx) && m < 7 && Progress(s, m) && k == CODE[m]
    ensures m + 1 <= Step(idx, k).0
  {
    assert m <= idx;
    Overlap(s, idx, m);
    if 0 < m < idx {
      SelfOverlap(idx, m);
    }
  }

  lemma ReachedBack(s: seq<Arrow>, idx: nat, k: Arrow)
    requires IsLongest(s, idx) && Step(idx, k).0 > 0
    ensures Progress(s, Step(idx, k).0 - 1) && k == CODE[Step(idx, k).0 - 1]
  {
    ProgressNone(s);
    if idx == 2 {
      Overlap(s, 2, 1);
      assert CODE[1..2] == CODE[..1];
    }
  }
}
