/** The access-code screen (components/cyberdeck_app/app_unlock.c): one pad, five phases,
    a worker that makes the keystore call, and the buffers that hold codes meanwhile. The
    keystore's answers, its retry wait and the spawning of the worker are inputs. */
module SetCode {
  const SIZE := 65
  const CODE_MIN := 4
  const NUL := '\0'

  type Buffer = b: seq<char> | |b| == 65 witness seq(65, _ => NUL)

  const ZERO: Buffer := seq(65, _ => NUL)

  datatype Phase = Unlock | Old | New | Confirm | Remove

  datatype Op = OpUnlock | OpCreate | OpChange | OpRemove

  datatype Ret = RetHome | RetConnect | RetMenu

  datatype Answer = Ok | Fail | Backoff | Error

  /** What the keystore and the system say during one call. */
  datatype Env = Env(waiting: bool, pinLen: nat, spawns: bool)

  /** A worker start, with what the pad was opened for and what was typed in each phase. */
  datatype Started = Started(op: Op, code: string, current: string, typedNew: string, typedConfirm: string,
                             typedOld: string, purpose: Phase)

  // ------------------------------------------------------------- C strings

  /** The characters before the first NUL. */
  function CStr(b: seq<char>): string {
    if b == [] || b[0] == NUL then "" else [b[0]] + CStr(b[1..])
  }

  predicate NoNul(s: string) {
    forall i :: 0 <= i < |s| ==> s[i] != NUL
  }

  /** Characters, then NULs to the end. */
  predicate Padded(b: seq<char>, len: nat) {
    len <= |b| && NoNul(b[..len]) && forall i :: len <= i < |b| ==> b[i] == NUL
  }

  lemma {:induction false} CStrOfPadded(b: seq<char>, len: nat)
    requires Padded(b, len)
    ensures CStr(b) == b[..len]
  {
    if len == 0 {
      assert b[..0] == "";
    } else {
      assert b[0] == b[..len][0];
      assert b[1..][..len - 1] == b[..len][1..];
      CStrOfPadded(b[1..], len - 1);
      assert b[..len] == [b[0]] + b[1..][..len - 1];
    }
  }

  lemma CStrOfZero()
    ensures CStr(ZERO) == ""
  {
  }

  /** A zero-padded entry is determined by its string. */
  lemma PaddedUnique(a: seq<char>, m: nat, b: seq<char>, n: nat)
    requires Padded(a, m) && Padded(b, n) && |a| == |b| && CStr(a) == CStr(b)
    ensures a == b
  {
    CStrOfPadded(a, m);
    CStrOfPadded(b, n);
    assert forall i :: 0 <= i < m ==> a[i] == a[..m][i] && b[i] == b[..n][i];
  }

  predicate AllDigits(s: string) {
    forall i :: 0 <= i < |s| ==> '0' <= s[i] <= '9'
  }

  /** staged_expected: the confirmation of an all-digit code of at most 24 characters
      submits itself, any other on Enter. */
  method StagedExpected(s: string) returns (n: nat)
    ensures n == if (forall i :: 0 <= i < |s| ==> '0' <= s[i] <= '9') && |s| <= 24 then |s| else 0
  {
    for i := 0 to |s|
      invariant AllDigits(s[..i])
    {
      if s[i] < '0' || s[i] > '9' {
        return 0;
      }
    }
    assert s[..|s|] == s;
    return if |s| <= 24 then |s| else 0;
  }

  // ------------------------------------------------------------- the screen

  class Pad {
    const code: array<char>
    var len: nat
    var onScreen: bool
    var phase: Phase
    var expected: nat
    var ret: Ret
    var creating: bool
    var gate: bool
    var deriving: bool
    /** The worker exchange and the flow's stashes. */
    var tryBuf: Buffer
    var oldBuf: Buffer
    var staged: Buffer
    var op: Op
    var done: bool
    var answer: Answer

    /** What was last submitted in each defining phase, and every worker start. */
    ghost var typedOld: string
    ghost var typedNew: string
    ghost var typedConfirm: string
    ghost var history: seq<Started>
    /** The phase the screen was last opened in. */
    ghost var purpose: Phase

    /** The entry is its characters and zeros; each stash holds a code only where the
        flow needs it, and away from this screen there is none left. */
    ghost predicate Valid()
      reads this, code
    {
      && code.Length == SIZE && len < SIZE && Padded(code[..], len)
      && (!onScreen ==> len == 0 && staged == ZERO && oldBuf == ZERO && tryBuf == ZERO && !deriving)
      && (deriving ==> len == 0 && staged == ZERO)
      && (!deriving || done ==> tryBuf == ZERO)
      && (onScreen && !deriving ==> StashesFit())
      && (deriving && done ==> oldBuf == ZERO)
      && (deriving ==> OpFits())
      && (creating && !deriving ==> oldBuf == ZERO)
      && (onScreen ==> PurposeFits())
      && Honest(history)
    }

    /** A pad opened to unlock or to remove does nothing else; one opened to define a code
        asks for the current one first exactly when there is one. */
    ghost predicate PurposeFits()
      reads this
    {
      match purpose
      case Unlock => phase == Unlock
      case Remove => phase == Remove
      case New => creating && (phase == New || phase == Confirm)
      case Old => !creating && (phase == Old || phase == New || phase == Confirm)
      case Confirm => false
    }

    /** The staged code is held only while it awaits confirmation, the current code only
        while a new one is being defined. */
    ghost predicate StashesFit()
      reads this
    {
      && (phase != Confirm ==> staged == ZERO) && (phase == Old ==> !creating)
      && (phase == Confirm ==> staged == ZERO || (Code(staged) && CStr(staged) == typedNew && |typedNew| >= CODE_MIN))
      && (phase == Unlock || phase == Old || phase == Remove ==> oldBuf == ZERO)
      && (phase == New || phase == Confirm ==> creating || CStr(oldBuf) == typedOld)
    }

    ghost predicate OpFits()
      reads this
    {
      match op
      case OpUnlock => phase == Unlock
      case OpCreate => phase == Confirm && creating
      case OpChange => phase == Confirm && !creating
      case OpRemove => phase == Remove
    }

    constructor ()
      ensures Valid() && !onScreen && history == [] && fresh(code)
    {
      code := new char[SIZE](_ => NUL);
      len, onScreen, phase, expected := 0, false, Unlock, 0;
      ret, creating, gate, deriving := RetHome, false, false, false;
      tryBuf, oldBuf, staged, op, done, answer := ZERO, ZERO, ZERO, OpUnlock, false, Ok;
      typedOld, typedNew, typedConfirm, history, purpose := "", "", "", [], Unlock;
    }

    method WipeEntry()
      requires code.Length == SIZE
      modifies this`len, code
      ensures len == 0 && code[..] == ZERO && Padded(code[..], 0)
    {
      forall i | 0 <= i < SIZE {
        code[i] := NUL;
      }
      len := 0;
    }

    method EnterPhase(p: Phase, exp: nat)
      requires code.Length == SIZE
      modifies this`len, this`phase, this`expected, code
      ensures len == 0 && code[..] == ZERO && Padded(code[..], 0) && phase == p && expected == exp
    {
      WipeEntry();
      phase, expected := p, exp;
    }

    /** The screen opens; never while a derivation runs. */
    method Open(p: Phase, exp: nat, r: Ret, create: bool, isGate: bool)
      requires Valid() && !deriving && (onScreen ==> phase == Unlock)
      requires p == Unlock || p == Remove || (p == New && create) || (p == Old && !create)
      modifies this`len, this`phase, this`expected, this`ret, this`creating, this`gate, this`onScreen, this`purpose,
               code
      ensures Valid() && onScreen && phase == p && len == 0 && purpose == p
      ensures expected == exp && ret == r && creating == create && gate == isGate
    {
      hide Honest, Padded, CStr, OpFits;
      gate, ret, creating, onScreen, purpose := isGate, r, create, true, p;
      EnterPhase(p, exp);
    }

    /** unlock_open, and unlock_open_gate, which cannot be left. */
    method OpenUnlock(resumeConnect: bool, isGate: bool, pinLen: nat)
      requires Valid() && !deriving && (onScreen ==> phase == Unlock)
      modifies this`len, this`phase, this`expected, this`ret, this`creating, this`gate, this`onScreen, this`purpose,
               code
      ensures Valid() && onScreen && phase == purpose == Unlock && expected == pinLen && len == 0
      ensures gate == isGate && ret == if resumeConnect && !isGate then RetConnect else RetHome
    {
      Open(Unlock, pinLen, if resumeConnect && !isGate then RetConnect else RetHome, false, isGate);
    }

    /** unlock_open_setpin: a keystore that is absent is created, else its code changed. */
    method OpenSetPin(absent: bool, pinLen: nat)
      requires Valid() && !deriving && (onScreen ==> phase == Unlock)
      modifies this`len, this`phase, this`expected, this`ret, this`creating, this`gate, this`onScreen, this`purpose,
               code
      ensures Valid() && onScreen && len == 0 && !gate && ret == RetMenu && creating == absent
      ensures purpose == phase && (phase, expected) == if absent then (New, 0) else (Old, pinLen)
    {
      if absent {
        Open(New, 0, RetMenu, true, false);
      } else {
        Open(Old, pinLen, RetMenu, false, false);
      }
    }

    /** unlock_open_remove. */
    method OpenRemove(pinLen: nat)
      requires Valid() && !deriving && (onScreen ==> phase == Unlock)
      modifies this`len, this`phase, this`expected, this`ret, this`creating, this`gate, this`onScreen, this`purpose,
               code
      ensures Valid() && onScreen && phase == purpose == Remove && expected == pinLen && len == 0
      ensures !gate && ret == RetMenu
    {
      Open(Remove, pinLen, RetMenu, false, false);
    }

    /** unlock_finish. */
    method Finish()
      requires code.Length == SIZE
      modifies this`len, this`staged, this`onScreen, code
      ensures len == 0 && code[..] == ZERO && staged == ZERO && !onScreen
    {
      WipeEntry();
      staged := ZERO;
      onScreen := false;
    }

    /** unlock_cancel: the device gate stays. */
    method Cancel()
      requires Valid() && onScreen && !deriving
      modifies this`len, this`staged, this`oldBuf, this`ret, this`onScreen, code
      ensures Valid() && onScreen == gate && history == old(history)
      ensures ret == if !gate && old(ret) == RetConnect then RetHome else old(ret)
      ensures gate ==> code[..] == old(code[..]) && len == old(len) && staged == old(staged) && oldBuf == old(oldBuf)
    {
      if gate {
        return;
      }
      oldBuf := ZERO;
      if ret == RetConnect {
        ret := RetHome;
      }
      Finish();
    }

    /** An unattended pad gives up. */
    method IdleCancel()
      requires Valid() && onScreen && !deriving && !gate
      modifies this`len, this`staged, this`oldBuf, this`ret, this`onScreen, code
      ensures Valid() && !onScreen && ret == RetHome
    {
      if ret == RetMenu {
        ret := RetHome;
      }
      Cancel();
    }

    /** start_worker. */
    method StartWorker(o: Op, env: Env)
      requires code.Length == SIZE && len < SIZE && Padded(code[..], len) && tryBuf == ZERO && onScreen && !deriving
      requires staged == ZERO && Honest(history) && PurposeFits()
      requires o == OpUnlock || o == OpRemove ==> oldBuf == ZERO
      requires o == OpUnlock ==> phase == Unlock
      requires o == OpRemove ==> phase == Remove
      requires o == OpCreate || o == OpChange ==> phase == Confirm && (o == OpCreate <==> creating)
      requires o == OpCreate || o == OpChange ==> code[..len] == typedNew == typedConfirm && len >= CODE_MIN
      requires o == OpChange ==> CStr(oldBuf) == typedOld
      requires o == OpCreate ==> oldBuf == ZERO
      modifies this`len, this`tryBuf, this`oldBuf, this`op, this`done, this`deriving, this`onScreen, this`history, code
      ensures Valid()
      ensures history == old(history) +
              [Started(o, old(code[..len]), CStr(old(oldBuf)), typedNew, typedConfirm, typedOld, purpose)]
      ensures StartedOnce(o, old(code[..len]), env)
    {
      CStrOfPadded(code[..], len);
      hide Padded, CStr, Honest;
      ghost var start := Started(o, code[..len], CStr(oldBuf), typedNew, typedConfirm, typedOld, purpose);
      HonestGrows(history, start);
      history := history + [start];
      Launch(o, env);
    }

    /** The worker gets a copy of the entry, which is wiped; one that does not spawn
        leaves nothing behind. */
    method Launch(o: Op, env: Env)
      requires code.Length == SIZE && tryBuf == ZERO && onScreen && !deriving && staged == ZERO && Honest(history)
      requires PurposeFits()
      requires o == OpUnlock ==> phase == Unlock
      requires o == OpRemove ==> phase == Remove
      requires o == OpCreate || o == OpChange ==> phase == Confirm && (o == OpCreate <==> creating)
      modifies this`len, this`tryBuf, this`oldBuf, this`op, this`done, this`deriving, this`onScreen, code
      ensures Valid()
      ensures if env.spawns then onScreen && deriving && op == o && tryBuf == old(code[..]) else !onScreen
    {
      hide Padded, Honest, CStr, StashesFit;
      tryBuf := code[..];
      WipeEntry();
      op, done, deriving := o, false, true;
      if !env.spawns {
        tryBuf, oldBuf, deriving, onScreen := ZERO, ZERO, false, false;
      }
    }

    /** One worker start for `entry`, on record; it runs on the entry, or nothing is left. */
    twostate predicate StartedOnce(o: Op, entry: string, env: Env)
      reads this
    {
      && |history| == |old(history)| + 1 && old(history) <= history
      && history[|old(history)|].op == o && history[|old(history)|].code == entry
      && (if env.spawns then onScreen && deriving && op == o && CStr(tryBuf) == entry else !onScreen)
    }

    /** What submitting a non-empty entry does in each phase. */
    twostate predicate Submitted(entry: string, env: Env)
      reads this, code
    {
      match old(phase)
      case Old =>
        && history == old(history) && onScreen && len == 0
        && if env.waiting then phase == Old && oldBuf == old(oldBuf) && expected == old(expected)
           else phase == New && CStr(oldBuf) == typedOld == entry && expected == 0
      case New =>
        && history == old(history) && onScreen
        && if |entry| < 4 then
             && phase == New && len == |entry| && CStr(code[..]) == entry && staged == old(staged)
             && expected == old(expected)
           else
             && phase == Confirm && len == 0 && CStr(staged) == typedNew == entry
             && expected == (if (forall i :: 0 <= i < |entry| ==> '0' <= entry[i] <= '9') && |entry| <= 24
                             then |entry| else 0)
      case Confirm =>
        && typedConfirm == entry
        && if old(staged) != ZERO && entry == old(typedNew)
           then StartedOnce(if old(creating) then OpCreate else OpChange, entry, env)
           else history == old(history) && onScreen && phase == New && len == 0 && staged == ZERO && expected == 0
      case Remove =>
        if env.waiting then
          history == old(history) && onScreen && phase == Remove && len == 0 && expected == old(expected)
        else StartedOnce(OpRemove, entry, env)
      case Unlock =>
        if env.waiting then
          history == old(history) && onScreen && phase == Unlock && len == 0 && expected == old(expected)
        else StartedOnce(OpUnlock, entry, env)
    }

    /** Nothing but the entry changed. */
    twostate predicate Untouched()
      reads this
    {
      && unchanged(`phase, `expected, `onScreen, `deriving, `history)
      && unchanged(`tryBuf, `oldBuf, `staged, `op, `done, `answer, `ret, `creating, `gate, `purpose)
    }

    /** submit: nothing while the entry is empty or a derivation runs. */
    method Submit(env: Env)
      requires Valid() && onScreen
      modifies this`len, this`phase, this`expected, this`tryBuf, this`oldBuf, this`staged, this`op, this`done,
               this`deriving, this`onScreen, this`typedOld, this`typedNew, this`typedConfirm, this`history, code
      ensures Valid()
      ensures if old(len) == 0 || old(deriving) then
                Untouched() && code[..] == old(code[..]) && len == old(len) && typedConfirm == old(typedConfirm)
              else Submitted(old(code[..len]), env)
    {
      hide Honest, Padded, CStr, OpFits;
      if len == 0 || deriving {
        return;
      }
      if (phase == Unlock || phase == Old || phase == Remove) && env.waiting {
        WipeEntry();
        return;
      }
      match phase {
        case Old =>
          SubmitOld();
        case New =>
          CStrOfPadded(code[..], len);
          SubmitNew();
        case Confirm =>
          SubmitConfirm(env);
        case Remove =>
          StartWorker(OpRemove, env);
        case Unlock =>
          StartWorker(OpUnlock, env);
      }
    }

    /** The current code is stashed, then the new one asked for. */
    method SubmitOld()
      requires Valid() && onScreen && !deriving && phase == Old && len > 0
      modifies this`len, this`phase, this`expected, this`oldBuf, this`typedOld, code
      ensures Valid() && phase == New && expected == 0 && len == 0 && oldBuf == old(code[..])
      ensures CStr(oldBuf) == typedOld == old(code[..len])
    {
      CStrOfPadded(code[..], len);
      oldBuf := code[..];
      typedOld := code[..len];
      EnterPhase(New, 0);
    }

    /** A new code of at least four characters is staged; a shorter one is kept to be
        extended. */
    method SubmitNew()
      requires Valid() && onScreen && !deriving && phase == New && len > 0
      modifies this`len, this`phase, this`expected, this`staged, this`typedNew, code
      ensures Valid()
      ensures if old(len) < 4
              then code[..] == old(code[..]) && len == old(len) && phase == New && staged == old(staged)
                   && expected == old(expected)
              else phase == Confirm && len == 0 && staged == old(code[..]) && typedNew == old(code[..len])
                   && expected == (if (forall i :: 0 <= i < |typedNew| ==> '0' <= typedNew[i] <= '9')
                                      && |typedNew| <= 24 then |typedNew| else 0)
    {
      hide Honest, Padded, CStr;
      if len < CODE_MIN {
        return;
      }
      CStrOfPadded(code[..], len);
      staged := code[..];
      typedNew := code[..len];
      var exp := StagedExpected(CStr(staged));
      EnterPhase(Confirm, exp);
    }

    /** The confirmation starts the worker exactly when it repeats the staged code. */
    method SubmitConfirm(env: Env)
      requires Valid() && onScreen && !deriving && phase == Confirm && len > 0
      modifies this`len, this`phase, this`expected, this`tryBuf, this`oldBuf, this`staged, this`op, this`done,
               this`deriving, this`onScreen, this`typedOld, this`typedNew, this`typedConfirm, this`history, code
      ensures Valid() && Submitted(old(code[..len]), env)
    {
      hide Honest, Padded, CStr, OpFits;
      CStrOfPadded(code[..], len);
      CStrOfZero();
      typedConfirm := code[..len];
      if CStr(code[..]) != CStr(staged) {
        staged := ZERO;
        EnterPhase(New, 0);
        return;
      }
      CopyStaged();
      staged := ZERO;
      StartWorker(if creating then OpCreate else OpChange, env);
    }

    /** memcpy(code, staged): they are the same string, so the entry does not change. */
    method CopyStaged()
      requires Valid() && onScreen && !deriving && phase == Confirm && len > 0 && CStr(code[..]) == CStr(staged)
      modifies code
      ensures code[..] == old(code[..])
    {
      CStrOfPadded(code[..], len);
      CStrOfZero();
      ghost var n :| Padded(staged, n);
      PaddedUnique(code[..], len, staged, n);
      forall i | 0 <= i < SIZE {
        code[i] := staged[i];
      }
    }

    /** append_char: a full entry ignores the key; the one that reaches the expected length
        submits. */
    method Append(c: char, env: Env)
      requires Valid() && onScreen && !deriving && c != NUL
      modifies this`len, this`phase, this`expected, this`tryBuf, this`oldBuf, this`staged, this`op, this`done,
               this`deriving, this`onScreen, this`typedOld, this`typedNew, this`typedConfirm, this`history, code
      ensures Valid()
      ensures if old(len) == 64 then Untouched() && code[..] == old(code[..]) && len == old(len)
              else if old(len) + 1 == old(expected) then Submitted(old(code[..len]) + [c], env)
              else Untouched() && len == old(len) + 1 && code[..len] == old(code[..len]) + [c]
    {
      if len >= SIZE - 1 {
        return;
      }
      Put(c);
      if expected != 0 && len == expected {
        Submit(env);
      }
    }

    method Put(c: char)
      requires Valid() && onScreen && !deriving && c != NUL && len < SIZE - 1
      modifies this`len, code
      ensures Valid() && len == old(len) + 1 && code[..len] == old(code[..len]) + [c]
    {
      code[len] := c;
      len := len + 1;
      assert code[..len] == old(code[..len]) + [c];
    }

    /** erase_char. */
    method Erase()
      requires Valid() && onScreen && !deriving
      modifies this`len, code
      ensures Valid()
      ensures if old(len) == 0 then len == 0
              else len == old(len) - 1 && code[..len] == old(code[..])[..old(len) - 1]
    {
      if len > 0 {
        len := len - 1;
        code[len] := NUL;
        assert code[..len] == old(code[..])[..len];
        assert NoNul(old(code[..])[..old(len)]);
        assert forall i :: 0 <= i < len ==> code[..len][i] == old(code[..])[..old(len)][i];
      }
    }

    /** The worker makes its call, wipes what it was given and reports. */
    method WorkerRuns(a: Answer)
      requires Valid() && deriving && !done
      modifies this`tryBuf, this`oldBuf, this`done, this`answer
      ensures Valid() && done && answer == a && tryBuf == ZERO && oldBuf == ZERO
    {
      tryBuf, oldBuf := ZERO, ZERO;
      answer, done := a, true;
    }

    /** unlock_tick and worker_result: route the answer. */
    method Collect(env: Env)
      requires Valid() && onScreen && deriving && done
      modifies this`len, this`deriving, this`phase, this`expected, this`staged, this`onScreen, code
      ensures Valid() && !deriving && history == old(history)
      ensures onScreen <==> answer.Backoff? || (answer.Fail? && op != OpCreate)
      ensures onScreen ==> len == 0 && phase == match op case OpUnlock => Unlock case OpCreate => Confirm
                                                         case OpChange => Old case OpRemove => Remove
      ensures onScreen ==>
                expected == if op == OpChange || (op == OpRemove && answer.Fail?) then env.pinLen else old(expected)
    {
      hide Honest, Padded, CStr;
      deriving := false;
      WipeEntry();
      if answer.Backoff? {
        if op == OpChange {
          EnterPhase(Old, env.pinLen);
        }
        return;
      }
      if op == OpUnlock {
        if answer.Ok? {
          Finish();
        } else if answer.Error? {
          onScreen := false;
        }
        return;
      }
      if answer.Fail? && (op == OpChange || op == OpRemove) {
        EnterPhase(if op == OpRemove then Remove else Old, env.pinLen);
        return;
      }
      Finish();
    }
  }

  ghost predicate Code(b: Buffer) {
    exists n :: 0 < n < SIZE && Padded(b, n)
  }

  /** The worker does only what the pad was opened for: it unlocks or removes from a pad
      opened to unlock or to remove, creates from one opened without a keystore, re-codes
      from one opened with one. A keystore is created or re-coded only with a code of at
      least four characters, typed the same way twice, and re-coded with the current code
      as it was typed. */
  predicate HonestStart(s: Started) {
    && (s.op == OpUnlock <==> s.purpose == Unlock) && (s.op == OpRemove <==> s.purpose == Remove)
    && (s.op == OpCreate <==> s.purpose == New) && (s.op == OpChange <==> s.purpose == Old)
    && (s.op == OpCreate || s.op == OpChange ==> |s.code| >= 4 && s.code == s.typedNew == s.typedConfirm)
    && (s.op == OpChange ==> s.current == s.typedOld)
  }

  predicate Honest(h: seq<Started>) {
    forall i :: 0 <= i < |h| ==> HonestStart(h[i])
  }

  lemma HonestGrows(h: seq<Started>, s: Started)
    requires Honest(h) && HonestStart(s)
    ensures Honest(h + [s])
  {
  }
}
