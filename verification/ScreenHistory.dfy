/** What the screen of ui.c must show, read off the calls and timer firings alone: no flag, timer or
    saved line is mentioned below until the theorems. */
module ScreenHistory {
  import opened Basics
  import opened Hd44780
  import opened LcdWire
  import opened ScreenModel

  /** Some error came after which there was neither a restore nor a firing of the running timer. */
  ghost predicate ErrorUp(ops: seq<Op>)
    decreases |ops|, 2
  {
    exists k :: 0 <= k < |ops| && ErrorSince(ops, k)
  }

  ghost predicate ErrorSince(ops: seq<Op>, k: nat)
    requires k < |ops|
    decreases |ops|, 1
  {
    ops[k].OpError? && forall j :: k < j < |ops| ==> !EndsError(ops, j)
  }

  ghost predicate EndsError(ops: seq<Op>, j: nat)
    requires j < |ops|
    decreases |ops|, 0
  {
    ops[j].OpRestore? || (ops[j].OpTimer? && TimerUp(ops[..j]))
  }

  /** Some overlay with a time limit came after which the timer has not fired: the timer is one-shot. */
  ghost predicate TimerUp(ops: seq<Op>)
    decreases |ops|, 2
  {
    exists k :: 0 <= k < |ops| && TimerSince(ops, k)
  }

  ghost predicate TimerSince(ops: seq<Op>, k: nat)
    requires k < |ops|
    decreases |ops|, 1
  {
    Starts(ops, k) && forall j :: k < j < |ops| ==> !ops[j].OpTimer?
  }

  /** A temporary error with a text, or a message with a text that met no error. */
  ghost predicate Starts(ops: seq<Op>, k: nat)
    requires k < |ops|
    decreases |ops|, 0
  {
    IsTemporary(ops[k]) && (ops[k].OpTempError? || !ErrorUp(ops[..k]))
  }

  predicate IsTemporary(op: Op) {
    match op
    case OpTempError(text, _) => text.Some?
    case OpTempMessage(text) => text.Some?
    case OpSplitMessage(first, second) => first.Some? && second.Some?
    case OpCommandMessage(_) => true
    case _ => false
  }

  /** Whether one more call after `before` draws. */
  ghost predicate Draws(before: seq<Op>, op: Op) {
    match op
    case OpSetText(_, _) => !ErrorUp(before) && !TimerUp(before)
    case OpBootProgress(_, _, _) => !ErrorUp(before) && !TimerUp(before)
    case OpTimer => TimerUp(before)
    case OpRestore => true
    case OpError(_) => true
    case _ => IsTemporary(op) && (op.OpTempError? || !ErrorUp(before))
  }

  /** The two rows it then draws. */
  function Rows(before: seq<Op>, op: Op): (seq<byte>, seq<byte>)
    requires Draws(before, op)
  {
    match op
    case OpSetText(a, b) => (Pad(a), Pad(b))
    case OpBootProgress(name, step, total) => (Pad(name), Bar(step, total))
    case OpTimer => (Pad(LastText(before, 0)), Pad(LastText(before, 1)))
    case OpRestore => (Pad(LastText(before, 0)), Pad(LastText(before, 1)))
    case OpError(msg) => (Pad(Ascii("ERROR!")), Pad(msg))
    case OpTempError(text, err) => (Pad(text.value), Pad(Ascii("ERROR 0x") + Hex(err)))
    case OpTempMessage(text) => MessageRows(text.value)
    case OpSplitMessage(a, b) => (Pad(a.value), Pad(b.value))
    case OpCommandMessage(cmd) => (Pad(Ascii("CMD:")), Pad(cmd))
  }

  /** The rows of the last call that drew; blank before any did. */
  ghost function LastDrawn(ops: seq<Op>): (seq<byte>, seq<byte>) {
    if ops == [] then (seq(16, i => 0x20), seq(16, i => 0x20))
    else
      var before, op := ops[..|ops| - 1], ops[|ops| - 1];
      if Draws(before, op) then Rows(before, op) else LastDrawn(before)
  }

  // ---- one more call ------------------------------------------------------------------------------

  lemma Prefixes(ops: seq<Op>, op: Op)
    ensures var all := ops + [op];
            && all[..|ops|] == ops && all[|ops|] == op
            && (forall j :: 0 <= j < |ops| ==> all[j] == ops[j] && all[..j] == ops[..j])
  {
  }

  lemma ErrorUpSnoc(ops: seq<Op>, op: Op)
    ensures ErrorUp(ops + [op])
       <==> op.OpError? || (ErrorUp(ops) && !op.OpRestore? && !(op.OpTimer? && TimerUp(ops)))
  {
    var all := ops + [op];
    Prefixes(ops, op);
    assert forall j :: 0 <= j < |ops| ==> (EndsError(all, j) <==> EndsError(ops, j));
    assert EndsError(all, |ops|) <==> op.OpRestore? || (op.OpTimer? && TimerUp(ops));
    assert ErrorSince(all, |ops|) <==> op.OpError?;
    forall k | 0 <= k < |ops|
      ensures ErrorSince(all, k) <==> ErrorSince(ops, k) && !EndsError(all, |ops|)
    {
    }
  }

  lemma TimerUpSnoc(ops: seq<Op>, op: Op)
    ensures TimerUp(ops + [op])
       <==> (IsTemporary(op) && (op.OpTempError? || !ErrorUp(ops))) || (TimerUp(ops) && !op.OpTimer?)
  {
    var all := ops + [op];
    Prefixes(ops, op);
    assert Starts(all, |ops|) <==> IsTemporary(op) && (op.OpTempError? || !ErrorUp(ops));
    assert TimerSince(all, |ops|) <==> Starts(all, |ops|);
    forall k | 0 <= k < |ops|
      ensures TimerSince(all, k) <==> TimerSince(ops, k) && !op.OpTimer?
    {
      assert Starts(all, k) <==> Starts(ops, k);
    }
  }

  // ---- the theorem --------------------------------------------------------------------------------

  ghost predicate Agrees(s: Screen, ops: seq<Op>) {
    && (s.error <==> ErrorUp(ops)) && (s.temp <==> TimerUp(ops)) && (s.timer.Running? <==> TimerUp(ops))
    && (s.shown0, s.shown1) == LastDrawn(ops)
  }

  lemma FlagsStep(s: Screen, ops: seq<Op>, op: Op)
    requires Agrees(s, ops) && !s.timer.Missing?
    ensures var r := Apply(s, op);
            && (r.error <==> ErrorUp(ops + [op]))
            && (r.temp <==> TimerUp(ops + [op])) && (r.timer.Running? <==> TimerUp(ops + [op]))
  {
    ErrorUpSnoc(ops, op);
    TimerUpSnoc(ops, op);
  }

  lemma DrawnStep(s: Screen, ops: seq<Op>, op: Op)
    requires Agrees(s, ops) && Tracked(s, ops)
    ensures var r := Apply(s, op); (r.shown0, r.shown1) == LastDrawn(ops + [op])
  {
    Prefixes(ops, op);
    match op {
      case OpBootProgress(name, step, total) =>
        PadIsIdempotent(name);
        assert Pad(Bar(step, total)) == Bar(step, total);
      case OpCommandMessage(cmd) => CommandMessageRows(cmd);
      case _ =>
    }
  }

  /** After any calls and timer firings from ui_init on: the error flag is up iff an error has not been
      ended since; the message timer runs, and the temporary flag is up, iff a temporary overlay was
      accepted and no firing has come since; and what is visible is what the last call that drew drew. */
  lemma {:induction false} ScreenFollowsHistory(ops: seq<Op>)
    ensures Agrees(Run(Initial(), ops), ops)
    decreases |ops|
  {
    if ops != [] {
      var before, op := ops[..|ops| - 1], ops[|ops| - 1];
      ScreenFollowsHistory(before);
      VisibleAgreesWithSaved(before);
      FlagsStep(Run(Initial(), before), before, op);
      DrawnStep(Run(Initial(), before), before, op);
      assert ops == before + [op];
    }
  }

  /** An error shown after a message has already run out stays, also when the timer's next period passes. */
  lemma FiredTimerLeavesErrors(note: cstring, msg: cstring)
    ensures var s := Run(Initial(), [OpTempMessage(Some(note)), OpTimer, OpError(msg), OpTimer]);
            s.error && (s.shown0, s.shown1) == (Pad(Ascii("ERROR!")), Pad(msg))
  {
    var a := [OpTempMessage(Some(note))];
    var b, c := a + [OpTimer], a + [OpTimer] + [OpError(msg)];
    RunOne(Initial(), OpTempMessage(Some(note)));
    RunSnoc(Initial(), a, OpTimer);
    assert Run(Initial(), b).timer.Idle?;
    RunSnoc(Initial(), b, OpError(msg));
    RunSnoc(Initial(), c, OpTimer);
    assert c + [OpTimer] == [OpTempMessage(Some(note)), OpTimer, OpError(msg), OpTimer];
  }
}
