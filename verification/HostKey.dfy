/** The host-key prompt (components/cyberdeck_app/app_hostkey.c). Replacing a changed key
    takes two matching confirmations or a Y. */
module HostKey {
  import opened Tiles

  /** Taps by where they land; `Other` is every remaining key or gesture. */
  datatype Input = TapOutside | TapTrust | TapCancel | Move(k: Arrow) | Esc | Enter | Type(ch: char) | Other

  datatype Outcome = Asking | WentHome | Trusted

  /** An input and the tile that was selected when it came: 0 trusts, 1 cancels. */
  datatype Entry = Entry(input: Input, sel: nat)

  const TILES := 2

  // ------------------------------------------------------------ the warrant

  predicate IsYes(e: Entry) {
    e.input.Type? && (e.input.ch == 'y' || e.input.ch == 'Y')
  }

  predicate IsTap(e: Entry) { e.input.TapTrust? }

  predicate IsEnter(e: Entry) { e.input.Enter? && e.sel == 0 }

  /** The nth input from the last has property p. */
  predicate Ago(t: seq<Entry>, n: nat, p: Entry -> bool) {
    n < |t| && p(t[|t| - 1 - n])
  }

  /** What licenses replacing a changed key: a Y; two taps on the tile in a row; or two
      Enters in a row on the selected tile, unless the first of them only answered a tap. */
  predicate Warranted(t: seq<Entry>) {
    || Ago(t, 0, IsYes)
    || (Ago(t, 0, IsTap) && Ago(t, 1, IsTap))
    || (Ago(t, 0, IsEnter) && Ago(t, 1, IsEnter) && !Ago(t, 2, IsTap))
  }

  predicate Declines(e: Entry) {
    e.input.Esc? || e.input.TapCancel? || (e.input.Enter? && e.sel != 0)
  }

  // -------------------------------------------------------------- the prompt

  class Prompt {
    var mismatch: bool
    var armed: bool
    /** 1 when a tap armed, 2 when Enter did. */
    var armSrc: nat
    var sel: nat
    var outcome: Outcome
    ghost var trace: seq<Entry>

    /** A tap arms exactly after a tap, Enter exactly after an Enter on the selected
        tile that did not answer a tap; otherwise nothing is armed. */
    ghost predicate Valid()
      reads this
    {
      && sel < TILES
      && (mismatch && outcome.Asking? ==>
            && (armed && armSrc == 1 <==> Ago(trace, 0, IsTap))
            && (armed && armSrc == 2 <==> Ago(trace, 0, IsEnter) && !Ago(trace, 1, IsTap))
            && (armed ==> armSrc == 1 || armSrc == 2))
      && (!mismatch ==> !armed)
    }

    /** hostkey_open: a changed key starts on Cancel. */
    constructor (changed: bool)
      ensures Valid() && mismatch == changed && trace == [] && outcome.Asking? && !armed
      ensures sel == if changed then 1 else 0
    {
      mismatch, armed, armSrc, sel := changed, false, 0, if changed then 1 else 0;
      outcome, trace := Asking, [];
    }

    method Disarm()
      modifies this`armed, this`armSrc
      ensures !armed && (old(armed) ==> armSrc == 0)
    {
      if armed {
        armed, armSrc := false, 0;
      }
    }

    method Arm(src: nat)
      modifies this`armed, this`armSrc
      ensures armed && armSrc == src
    {
      armed, armSrc := true, src;
    }

    /** hostkey_input. Over every run, the prompt ends in trust exactly when the inputs
        warrant it, and goes home exactly when the last one declines. */
    method Handle(input: Input, ncols: nat)
      requires Valid() && outcome.Asking? && ncols > 0
      modifies this
      ensures Valid() && mismatch == old(mismatch) && trace == old(trace) + [Entry(input, old(sel))]
      ensures mismatch ==> (outcome.Trusted? <==> Warranted(trace))
      ensures !mismatch ==> (outcome.Trusted? <==> Ago(trace, 0, IsTap) || Ago(trace, 0, IsEnter))
      ensures outcome.WentHome? <==> input.Esc? || input.TapCancel? || (input.Enter? && old(sel) != 0)
      ensures sel == match input
                     case TapTrust => 0
                     case Move(k) => TileNav(old(sel), k, 2, ncols)
                     case _ => old(sel)
    {
      ghost var e := Entry(input, sel);
      trace := trace + [e];
      Shifted(old(trace), e);
      match input {
        case TapOutside =>
          Disarm();
        case TapCancel =>
          outcome := WentHome;
        case TapTrust =>
          sel := 0;
          if !mismatch || (armed && armSrc == 1) {
            outcome := Trusted;
          } else {
            Arm(1);
          }
        case Move(k) =>
          sel := TileNav(sel, k, TILES, ncols);
          Disarm();
        case Esc =>
          outcome := WentHome;
        case Enter =>
          PressEnter();
        case Type(ch) =>
          if mismatch && (ch == 'y' || ch == 'Y') {
            outcome := Trusted;
          } else if mismatch {
            Disarm();
          }
        case Other =>
          if mismatch {
            Disarm();
          }
      }
    }

    method PressEnter()
      requires outcome.Asking?
      modifies this`outcome, this`armed, this`armSrc
      ensures if sel != 0 then outcome.WentHome? && armed == old(armed) && armSrc == old(armSrc)
              else if !mismatch || old(armed && armSrc == 2) then outcome.Trusted? && armed == old(armed)
              else outcome.Asking? && armed == !old(armed) && (armed ==> armSrc == 2)
    {
      if sel != 0 {
        outcome := WentHome;
      } else if !mismatch || (armed && armSrc == 2) {
        outcome := Trusted;
      } else if armed {
        Disarm();
      } else {
        Arm(2);
      }
    }
  }

  /** One more input pushes the others back by one. */
  lemma Shifted(t: seq<Entry>, e: Entry)
    ensures forall n: nat, p: Entry -> bool :: Ago(t + [e], n + 1, p) <==> Ago(t, n, p)
    ensures forall p: Entry -> bool :: Ago(t + [e], 0, p) <==> p(e)
  {
  }

  // ------------------------------------------------------------------- runs

  /** Input k is a Y, or the second of two equal confirmations in a row. */
  predicate Confirms(inputs: seq<Input>, k: nat) {
    && k < |inputs|
    && (|| (inputs[k].Type? && (inputs[k].ch == 'y' || inputs[k].ch == 'Y'))
        || (k > 0 && inputs[k] == inputs[k - 1] && (inputs[k].TapTrust? || inputs[k].Enter?)))
  }

  predicate Replays(trace: seq<Entry>, inputs: seq<Input>) {
    |trace| <= |inputs| && forall i :: 0 <= i < |trace| ==> trace[i].input == inputs[i]
  }

  lemma WarrantConfirms(trace: seq<Entry>, inputs: seq<Input>)
    requires Replays(trace, inputs) && Warranted(trace)
    ensures |trace| > 0 && Confirms(inputs, |trace| - 1)
  {
    var n := |trace|;
    assert trace[n - 1].input == inputs[n - 1];
    if n > 1 {
      assert trace[n - 2].input == inputs[n - 2];
    }
  }

  /** A changed key in front of any inputs whatever: it is replaced only at a Y or at the
      second of two equal confirmations in a row. A single tap or Enter, a tap and an Enter
      in either order, or confirmations with anything between them never do it. */
  method Answer(p: Prompt, inputs: seq<Input>, ncols: nat)
    requires p.Valid() && p.mismatch && p.outcome.Asking? && p.trace == [] && ncols > 0
    modifies p
    ensures p.Valid() && Replays(p.trace, inputs)
    ensures p.outcome.Asking? ==> |p.trace| == |inputs|
    ensures p.outcome.Trusted? <==> Warranted(p.trace)
    ensures p.outcome.Trusted? ==> Confirms(inputs, |p.trace| - 1)
    ensures (forall k :: 0 <= k < |inputs| ==> !Confirms(inputs, k)) ==> !p.outcome.Trusted?
  {
    hide Warranted;
    var k := 0;
    NoWarrantYet();
    while k < |inputs| && p.outcome.Asking?
      invariant 0 <= k <= |inputs| && p.Valid() && p.mismatch
      invariant |p.trace| == k && Replays(p.trace, inputs)
      invariant p.outcome.Trusted? <==> Warranted(p.trace)
    {
      p.Handle(inputs[k], ncols);
      k := k + 1;
    }
    if p.outcome.Trusted? {
      WarrantConfirms(p.trace, inputs);
    }
  }

  lemma NoWarrantYet()
    ensures !Warranted([])
  {
  }
}
