/** ui.c on values: the saved lines, the overlay flags, the message timer and what is visible. */
module ScreenModel {
  import opened Basics
  import opened Hd44780
  import opened LcdWire

  const WIDTH := 16
  const BAR: byte := 0x01      // PROGRESS_BAR_CHAR

  function Spaces(n: nat): cstring { seq(n, i => BLANK) }

  function Take(text: cstring, n: nat): cstring { if |text| <= n then text else text[..n] }

  /** snprintf "%-16s" into 17 bytes: padded on the right, cut at 16 columns. */
  function Pad(text: cstring): (line: cstring)
    ensures |line| == WIDTH && Take(text, WIDTH) <= line
    ensures forall i :: |text| <= i < WIDTH ==> line[i] == BLANK
  {
    if |text| < WIDTH then text + Spaces(WIDTH - |text|) else text[..WIDTH]
  }

  function Ascii(s: string): cstring
    requires forall i :: 0 <= i < |s| ==> 0 < s[i] as int < 256
  {
    seq(|s|, i requires 0 <= i < |s| => s[i] as int)
  }

  /** printf "%X". */
  function Hex(n: nat): (s: cstring)
    ensures |s| >= 1
  {
    var d := n % 16;
    var digit: byte := if d < 10 then 48 + d else 55 + d;
    if n < 16 then [digit] else Hex(n / 16) + [digit]
  }

  function Power16(k: nat): nat { if k == 0 then 1 else 16 * Power16(k - 1) }

  lemma {:induction false} HexLength(n: nat, k: nat)
    requires 1 <= k && n < Power16(k)
    ensures |Hex(n)| <= k
  {
    if n >= 16 {
      assert Power16(1) == 16 * Power16(0);
      HexLength(n / 16, k - 1);
    }
  }

  const ERROR_TITLE: cstring := Ascii("ERROR!")
  const COMMAND_TITLE: cstring := Ascii("CMD:")

  function ErrorCode(err: nat): cstring { Ascii("ERROR 0x") + Hex(err) }

  function Clamp(step: int, total: int): int { if step < 0 then 0 else if step > total then total else step }

  /** The progress bar of ui_show_boot_progress. */
  function Bar(step: int, totalSteps: int): (line: cstring)
    ensures |line| == WIDTH
  {
    var total := if totalSteps <= 0 then 1 else totalSteps;
    var blocks := Clamp(step, total) * WIDTH / total;
    seq(WIDTH, i => if i < blocks then BAR else BLANK)
  }

  /** The two rows a temporary message is broken over. */
  function MessageRows(text: cstring): (rows: (cstring, cstring))
    ensures |rows.0| == WIDTH && |rows.1| == WIDTH
  {
    if |text| <= WIDTH then (Pad(text), Spaces(WIDTH)) else (text[..WIDTH], Pad(text[WIDTH..]))
  }

  function CommandMessage(text: cstring): cstring { Take(Pad(COMMAND_TITLE) + text, 32) }

  datatype Timer = Missing | Idle | Running

  datatype Screen = Screen(
    saved0: cstring, saved1: cstring,
    error: bool, temp: bool, timer: Timer,
    shown0: seq<byte>, shown1: seq<byte>)
  {
    predicate InSync() { shown0 == saved0 && shown1 == saved1 }

    function Started(): Screen { if timer.Missing? then this else this.(timer := Running) }
  }

  function SetRow(s: Screen, row: nat, text: cstring): Screen
    requires row < 2
  {
    var line := Pad(text);
    var saved := if row == 0 then s.(saved0 := line) else s.(saved1 := line);
    if s.error || s.temp then saved
    else if row == 0 then saved.(shown0 := line) else saved.(shown1 := line)
  }

  function SetText(s: Screen, line0: cstring, line1: cstring): Screen {
    SetRow(SetRow(s, 0, line0), 1, line1)
  }

  function Restore(s: Screen): Screen { s.(error := false, shown0 := s.saved0, shown1 := s.saved1) }

  /** The one-shot message timer fires only while it runs. */
  function TimerFires(s: Screen): Screen {
    if s.timer.Running? then Restore(s.(temp := false, timer := Idle)) else s
  }

  function ShowError(s: Screen, msg: cstring): Screen {
    s.(error := true, shown0 := Pad(ERROR_TITLE), shown1 := Pad(msg))
  }

  function ShowTempError(s: Screen, text: Option<cstring>, err: nat): Screen {
    if text.None? then s
    else s.(temp := true, shown0 := Pad(text.value), shown1 := Pad(ErrorCode(err))).Started()
  }

  function ShowTempRows(s: Screen, rows: (cstring, cstring)): Screen {
    s.(shown0 := rows.0, shown1 := rows.1, temp := s.temp || !s.timer.Missing?).Started()
  }

  function ShowTempMessage(s: Screen, text: Option<cstring>): Screen {
    if text.None? || s.error then s else ShowTempRows(s, MessageRows(text.value))
  }

  function ShowSplitTempMessage(s: Screen, first: Option<cstring>, second: Option<cstring>): Screen {
    if first.None? || second.None? || s.error then s
    else ShowTempRows(s, (Pad(first.value), Pad(second.value)))
  }

  function ShowBootProgress(s: Screen, name: cstring, step: int, total: int): Screen {
    SetText(s, Pad(name), Bar(step, total))
  }

  // ---- runs -----------------------------------------------------------------------------------

  datatype Op =
    | OpSetText(line0: cstring, line1: cstring)
    | OpBootProgress(name: cstring, step: int, total: int)
    | OpRestore
    | OpTimer
    | OpError(msg: cstring)
    | OpTempError(text: Option<cstring>, err: nat)
    | OpTempMessage(text: Option<cstring>)
    | OpSplitMessage(first: Option<cstring>, second: Option<cstring>)
    | OpCommandMessage(cmd: cstring)

  function Apply(s: Screen, op: Op): Screen {
    match op
    case OpSetText(a, b) => SetText(s, a, b)
    case OpBootProgress(name, step, total) => ShowBootProgress(s, name, step, total)
    case OpRestore => Restore(s)
    case OpTimer => TimerFires(s)
    case OpError(msg) => ShowError(s, msg)
    case OpTempError(text, err) => ShowTempError(s, text, err)
    case OpTempMessage(text) => ShowTempMessage(s, text)
    case OpSplitMessage(a, b) => ShowSplitTempMessage(s, a, b)
    case OpCommandMessage(cmd) => ShowTempMessage(s, Some(CommandMessage(cmd)))
  }

  function Run(s: Screen, ops: seq<Op>): Screen {
    if ops == [] then s else Apply(Run(s, ops[..|ops| - 1]), ops[|ops| - 1])
  }

  /** The screen ui_init leaves: blank lines, no overlay, message timer created. */
  function Initial(): Screen { Screen(Spaces(WIDTH), Spaces(WIDTH), false, false, Idle, Spaces(WIDTH), Spaces(WIDTH)) }

  predicate SetsText(op: Op) { op.OpSetText? || op.OpBootProgress? }

  function RowText(op: Op, row: nat): cstring
    requires SetsText(op) && row < 2
  {
    match op
    case OpSetText(a, b) => if row == 0 then a else b
    case OpBootProgress(name, step, total) => if row == 0 then name else Bar(step, total)
  }

  /** The last text any call set for a row, looked up in the calls alone. */
  function LastText(ops: seq<Op>, row: nat): cstring
    requires row < 2
  {
    if ops == [] then []
    else if SetsText(ops[|ops| - 1]) then RowText(ops[|ops| - 1], row)
    else LastText(ops[..|ops| - 1], row)
  }

  lemma PadIsIdempotent(text: cstring)
    ensures Pad(Pad(text)) == Pad(text)
  {
  }

  /** Without an overlay the visible rows are the saved lines; a temporary one has a running timer. */
  ghost predicate ScreenHonest(s: Screen) {
    (!s.error && !s.temp ==> s.InSync()) && (s.temp ==> s.timer.Running?) && !s.timer.Missing?
  }

  /** What holds after any calls `ops`. */
  ghost predicate Tracked(s: Screen, ops: seq<Op>) {
    && ScreenHonest(s)
    && s.saved0 == Pad(LastText(ops, 0)) && s.saved1 == Pad(LastText(ops, 1))
  }

  lemma TrackedText(s: Screen, ops: seq<Op>, op: Op)
    requires Tracked(s, ops) && SetsText(op)
    ensures Tracked(Apply(s, op), ops + [op])
  {
    assert (ops + [op])[..|ops|] == ops;
    PadIsIdempotent(RowText(op, 0));
    PadIsIdempotent(RowText(op, 1));
  }

  lemma TrackedStep(s: Screen, ops: seq<Op>, op: Op)
    requires Tracked(s, ops)
    ensures Tracked(Apply(s, op), ops + [op])
  {
    if SetsText(op) {
      TrackedText(s, ops, op);
    } else {
      assert (ops + [op])[..|ops|] == ops;
    }
  }

  /** Over every sequence of calls and timer firings: without an overlay the visible window is the
      saved lines; each saved line is the padded last text of its row, also when that text arrived
      under an overlay; a temporary overlay always has a running timer. */
  lemma {:induction false} VisibleAgreesWithSaved(ops: seq<Op>)
    ensures Tracked(Run(Initial(), ops), ops)
    decreases |ops|
  {
    if ops == [] {
      assert Pad([]) == Spaces(WIDTH);
    } else {
      var before, op := ops[..|ops| - 1], ops[|ops| - 1];
      VisibleAgreesWithSaved(before);
      TrackedStep(Run(Initial(), before), before, op);
      assert ops == before + [op];
    }
  }

  /** A firing of the running timer always ends both overlays. */
  lemma TimerEndsEveryOverlay(ops: seq<Op>)
    requires Run(Initial(), ops).timer.Running?
    ensures var s := Run(Initial(), ops + [OpTimer]); !s.error && !s.temp && s.InSync()
  {
    assert (ops + [OpTimer])[..|ops|] == ops;
  }

  // ---- how long an error lasts --------------------------------------------------------------------

  predicate NoNewError(ops: seq<Op>) { forall i :: 0 <= i < |ops| ==> !ops[i].OpError? }

  predicate StartsTimer(op: Op) { op.OpTempError? && op.text.Some? }

  /** With an error up the timer runs if it did already or a temporary error has started it since;
      messages are refused under an error and cannot. */
  predicate Armed(s: Screen, ops: seq<Op>) {
    s.timer.Running? || (s.timer.Idle? && exists i :: 0 <= i < |ops| && StartsTimer(ops[i]))
  }

  /** The calls hold no restore and no firing of the message timer while it is armed. */
  predicate LeavesError(s: Screen, ops: seq<Op>) {
    forall i :: 0 <= i < |ops| ==> !ops[i].OpRestore? && (ops[i].OpTimer? ==> !Armed(s, ops[..i]))
  }

  /** The rows of the last temporary error, which overwrites the error screen under its flag. */
  function ErrorRows(ops: seq<Op>, rows: (seq<byte>, seq<byte>)): (seq<byte>, seq<byte>) {
    if ops == [] then rows
    else
      var op := ops[|ops| - 1];
      if StartsTimer(op) then (Pad(op.text.value), Pad(ErrorCode(op.err))) else ErrorRows(ops[..|ops| - 1], rows)
  }

  lemma ArmedSnoc(s: Screen, ops: seq<Op>, op: Op)
    ensures Armed(s, ops + [op]) <==> Armed(s, ops) || (s.timer.Idle? && StartsTimer(op))
  {
    var all := ops + [op];
    assert all[|ops|] == op;
    assert forall i :: 0 <= i < |ops| ==> all[i] == ops[i];
  }

  lemma LeavesErrorSnoc(s: Screen, ops: seq<Op>, op: Op)
    ensures LeavesError(s, ops + [op])
       <==> LeavesError(s, ops) && !op.OpRestore? && (op.OpTimer? ==> !Armed(s, ops))
  {
    var all := ops + [op];
    assert all[|ops|] == op && all[..|ops|] == ops;
    assert forall i :: 0 <= i < |ops| ==> all[i] == ops[i] && all[..i] == ops[..i];
  }

  /** What is known of the screen `r` that calls `ops` made of the error screen `s`. */
  ghost predicate ErrorTracked(s: Screen, ops: seq<Op>, r: Screen) {
    && (r.error <==> LeavesError(s, ops))
    && (r.error ==> (r.timer.Running? <==> Armed(s, ops)) && (r.timer.Missing? <==> s.timer.Missing?)
                    && (r.shown0, r.shown1) == ErrorRows(ops, (s.shown0, s.shown1)))
  }

  lemma ErrorStep(s: Screen, ops: seq<Op>, r: Screen, op: Op)
    requires ErrorTracked(s, ops, r) && !op.OpError?
    ensures ErrorTracked(s, ops + [op], Apply(r, op))
  {
    LeavesErrorSnoc(s, ops, op);
    if r.error {
      ArmedSnoc(s, ops, op);
      assert (ops + [op])[..|ops|] == ops;
    }
  }

  lemma {:induction false} ErrorRun(s: Screen, ops: seq<Op>)
    requires s.error && NoNewError(ops)
    ensures ErrorTracked(s, ops, Run(s, ops))
    decreases |ops|
  {
    if ops != [] {
      var before, op := ops[..|ops| - 1], ops[|ops| - 1];
      ErrorRun(s, before);
      ErrorStep(s, before, Run(s, before), op);
      assert ops == before + [op];
    }
  }

  /** From any screen, an error is still up after any further calls short of a new error exactly when
      those calls hold no restore and no timer firing that found the timer running, be it from a message
      before the error or from a temporary error after it. While it is up its rows are visible unless a
      temporary error has overwritten them: then the last such rows are, under the error's flag. */
  lemma ErrorLasts(s: Screen, msg: cstring, ops: seq<Op>)
    requires NoNewError(ops)
    ensures var r := Run(ShowError(s, msg), ops);
            && (r.error <==> LeavesError(s, ops))
            && (r.error ==> (r.shown0, r.shown1) == ErrorRows(ops, (Pad(ERROR_TITLE), Pad(msg))))
  {
    var e := ShowError(s, msg);
    ErrorRun(e, ops);
    assert forall i :: 0 <= i < |ops| ==> (Armed(e, ops[..i]) <==> Armed(s, ops[..i]));
    assert LeavesError(e, ops) <==> LeavesError(s, ops);
  }

  lemma RunSnoc(s: Screen, ops: seq<Op>, op: Op)
    ensures Run(s, ops + [op]) == Apply(Run(s, ops), op)
  {
    assert (ops + [op])[..|ops|] == ops;
  }

  lemma RunOne(s: Screen, op: Op)
    ensures Run(s, [op]) == Apply(s, op)
  {
    assert [op][..0] == [];
  }

  lemma TimerWipesError(msg: cstring, note: cstring)
    ensures var s := Run(Initial(), [OpTempMessage(Some(note)), OpError(msg)]);
            s.error && s.timer.Running? && (s.shown0, s.shown1) == (Pad(ERROR_TITLE), Pad(msg))
  {
    RunOne(Initial(), OpTempMessage(Some(note)));
    RunSnoc(Initial(), [OpTempMessage(Some(note))], OpError(msg));
    assert [OpTempMessage(Some(note))] + [OpError(msg)] == [OpTempMessage(Some(note)), OpError(msg)];
  }

  lemma TempErrorOverwrites(msg: cstring, note: cstring, err: nat)
    ensures var s := Run(Initial(), [OpError(msg), OpTempError(Some(note), err)]);
            s.error && s.timer.Running? && (s.shown0, s.shown1) == (Pad(note), Pad(ErrorCode(err)))
  {
    RunOne(Initial(), OpError(msg));
    RunSnoc(Initial(), [OpError(msg)], OpTempError(Some(note), err));
    assert [OpError(msg)] + [OpTempError(Some(note), err)] == [OpError(msg), OpTempError(Some(note), err)];
  }

  /** Two errors that do not stay: one is wiped by the timer of a message shown before it, the other's
      rows are replaced by a temporary error, whose end then also ends the error. */
  lemma ErrorCanBeCutShort(msg: cstring, note: cstring, err: nat)
    ensures var s := Run(Initial(), [OpTempMessage(Some(note)), OpError(msg)]);
            s.error && (s.shown0, s.shown1) == (Pad(ERROR_TITLE), Pad(msg))
    ensures var r := Run(Initial(), [OpTempMessage(Some(note)), OpError(msg), OpTimer]); !r.error && r.InSync()
    ensures var s := Run(Initial(), [OpError(msg), OpTempError(Some(note), err)]);
            s.error && (s.shown0, s.shown1) == (Pad(note), Pad(ErrorCode(err)))
    ensures var r := Run(Initial(), [OpError(msg), OpTempError(Some(note), err), OpTimer]); !r.error && r.InSync()
  {
    var a, b := [OpTempMessage(Some(note)), OpError(msg)], [OpError(msg), OpTempError(Some(note), err)];
    TimerWipesError(msg, note);
    RunSnoc(Initial(), a, OpTimer);
    assert a + [OpTimer] == [OpTempMessage(Some(note)), OpError(msg), OpTimer];
    TempErrorOverwrites(msg, note, err);
    RunSnoc(Initial(), b, OpTimer);
    assert b + [OpTimer] == [OpError(msg), OpTempError(Some(note), err), OpTimer];
  }

  /** While an overlay is up, setting text changes the saved line only. */
  lemma OverlayHidesText(s: Screen, a: cstring, b: cstring)
    requires s.error || s.temp
    ensures var r := SetText(s, a, b);
            && r.shown0 == s.shown0 && r.shown1 == s.shown1 && r.saved0 == Pad(a) && r.saved1 == Pad(b)
            && (TimerFires(r).shown0 == Pad(a) <== s.timer.Running?)
            && Restore(r).shown0 == Pad(a) && Restore(r).shown1 == Pad(b)
  {
  }

  lemma {:induction false} TextLeavesOverlay(s: Screen, ops: seq<Op>)
    requires (s.error || s.temp) && forall i :: 0 <= i < |ops| ==> SetsText(ops[i])
    ensures var r := Run(s, ops);
            r.error == s.error && r.temp == s.temp && r.shown0 == s.shown0 && r.shown1 == s.shown1
    decreases |ops|
  {
    if ops != [] { TextLeavesOverlay(s, ops[..|ops| - 1]); }
  }

  /** An accepted overlay is what is visible, through any amount of text set meanwhile. */
  lemma OverlayStaysVisible(s: Screen, msg: cstring, second: cstring, err: nat, ops: seq<Op>)
    requires forall i :: 0 <= i < |ops| ==> SetsText(ops[i])
    ensures var r := Run(ShowError(s, msg), ops); r.error && (r.shown0, r.shown1) == (Pad(ERROR_TITLE), Pad(msg))
    ensures var r := Run(ShowTempError(s, Some(msg), err), ops);
            r.temp && (r.shown0, r.shown1) == (Pad(msg), Pad(ErrorCode(err)))
    ensures !s.error && !s.timer.Missing? ==>
              var r := Run(ShowTempMessage(s, Some(msg)), ops);
              r.temp && (r.shown0, r.shown1) == MessageRows(msg)
    ensures !s.error && !s.timer.Missing? ==>
              var r := Run(ShowSplitTempMessage(s, Some(msg), Some(second)), ops);
              r.temp && (r.shown0, r.shown1) == (Pad(msg), Pad(second))
    ensures s.error ==> ShowTempMessage(s, Some(msg)) == s == ShowSplitTempMessage(s, Some(msg), Some(second))
  {
    TextLeavesOverlay(ShowError(s, msg), ops);
    TextLeavesOverlay(ShowTempError(s, Some(msg), err), ops);
    if !s.error && !s.timer.Missing? {
      TextLeavesOverlay(ShowTempMessage(s, Some(msg)), ops);
      TextLeavesOverlay(ShowSplitTempMessage(s, Some(msg), Some(second)), ops);
    }
  }

  /** A message is shown as its first 32 characters followed by blanks, whichever way it is broken. */
  lemma MessageRowsShowText(text: cstring)
    ensures var rows := MessageRows(text);
            rows.0 + rows.1 == Take(text, 32) + Spaces(if |text| < 32 then 32 - |text| else 0)
  {
    if WIDTH < |text| <= 32 {
      assert text == text[..WIDTH] + text[WIDTH..];
    }
  }

  /** A command message always shows its title on the first row and the command on the second. */
  lemma CommandMessageRows(cmd: cstring)
    ensures MessageRows(CommandMessage(cmd)) == (Pad(COMMAND_TITLE), Pad(cmd))
  {
    var all := Pad(COMMAND_TITLE) + cmd;
    assert all[..WIDTH] == Pad(COMMAND_TITLE);
    if cmd == [] {
      assert all == Pad(COMMAND_TITLE) && Pad(cmd) == Spaces(WIDTH);
      PadIsIdempotent(COMMAND_TITLE);
    } else if |all| <= 32 {
      assert all[WIDTH..] == cmd;
    } else {
      assert all[..32][..WIDTH] == Pad(COMMAND_TITLE);
      assert all[..32][WIDTH..] == cmd[..WIDTH] == Pad(cmd);
      assert Pad(cmd[..WIDTH]) == cmd[..WIDTH];
    }
  }

  function Filled(line: cstring): nat {
    if line == [] then 0 else Filled(line[..|line| - 1]) + if line[|line| - 1] == BAR then 1 else 0
  }

  lemma {:induction false} FilledPrefix(line: cstring, blocks: nat)
    requires blocks <= |line| && forall i :: 0 <= i < |line| ==> line[i] == if i < blocks then BAR else BLANK
    ensures Filled(line) == blocks
    decreases |line|
  {
    if line != [] {
      FilledPrefix(line[..|line| - 1], if blocks == |line| then blocks - 1 else blocks);
    }
  }

  lemma BlocksInRange(step: int, total: int)
    requires total > 0
    ensures var blocks := Clamp(step, total) * WIDTH / total;
            0 <= blocks <= WIDTH && (blocks == WIDTH <==> step >= total)
  {
    var q := Clamp(step, total) * WIDTH / total;
    assert total * q <= Clamp(step, total) * WIDTH < total * q + total;
    if q > WIDTH { MulLe(WIDTH + 1, q, total); }
    if q >= WIDTH { MulLe(WIDTH, q, total); }
    if step >= total && q < WIDTH { MulLe(q, WIDTH - 1, total); }
  }

  lemma BarBlocks(step: int, total: int)
    requires total > 0
    ensures Filled(Bar(step, total)) == Clamp(step, total) * WIDTH / total
  {
    BlocksInRange(step, total);
    FilledPrefix(Bar(step, total), Clamp(step, total) * WIDTH / total);
  }

  /** The bar holds floor(16 * step / total) blocks, so it never shrinks as a step advances, and is full
      exactly when the last step is reached. */
  lemma BarFills(step: int, later: int, total: int)
    requires total > 0 && step <= later
    ensures Filled(Bar(step, total)) == Clamp(step, total) * WIDTH / total
    ensures Filled(Bar(step, total)) <= Filled(Bar(later, total)) <= WIDTH
    ensures Filled(Bar(step, total)) == WIDTH <==> step >= total
  {
    BarBlocks(step, total);
    BarBlocks(later, total);
    BlocksInRange(step, total);
    BlocksInRange(later, total);
    DivLe(Clamp(step, total) * WIDTH, Clamp(later, total) * WIDTH, total);
  }

  lemma BlockColumn(done: int, total: int, column: nat)
    requires total > 0
    ensures column < done * 16 / total <==> (column + 1) * total <= 16 * done
  {
    var blocks := done * 16 / total;
    assert blocks * total <= done * 16 < (blocks + 1) * total;
    if column < blocks { MulLe(column + 1, blocks, total); } else { MulLe(blocks + 1, column + 1, total); }
  }

  /** The bar fills from the left: a column is a block iff the clamped step reaches it. */
  lemma BarColumns(step: int, totalSteps: int, column: nat)
    requires column < 16
    ensures var total := if totalSteps <= 0 then 1 else totalSteps;
            var done := if step < 0 then 0 else if step > total then total else step;
            Bar(step, totalSteps)[column] == if (column + 1) * total <= 16 * done then 0x01 else 0x20
  {
    var total := if totalSteps <= 0 then 1 else totalSteps;
    BlockColumn(Clamp(step, total), total, column);
  }

  lemma FullBar(n: nat)
    requires n > 0
    ensures forall i :: 0 <= i < WIDTH ==> Bar(n, n)[i] == BAR
  {
    BlocksInRange(n, n);
  }

  function HexValue(s: seq<byte>): nat
    requires forall i :: 0 <= i < |s| ==> 48 <= s[i] < 58 || 65 <= s[i] < 71
  {
    if s == [] then 0
    else HexValue(s[..|s| - 1]) * 16 + if s[|s| - 1] < 58 then s[|s| - 1] - 48 else s[|s| - 1] - 55
  }

  /** The printed error code reads back as the code. */
  lemma {:induction false} HexRoundTrip(n: nat)
    ensures (forall i :: 0 <= i < |Hex(n)| ==> 48 <= Hex(n)[i] < 58 || 65 <= Hex(n)[i] < 71) && HexValue(Hex(n)) == n
  {
    if n >= 16 {
      HexRoundTrip(n / 16);
      assert Hex(n)[..|Hex(n)| - 1] == Hex(n / 16);
    } else {
      assert Hex(n)[..0] == [];
    }
  }

  /** The promise needs the timer: from a synchronised screen without overlays, an accepted message
      leaves "no overlay implies synchronised" intact exactly when the timer exists or the message
      happens to be the saved lines. */
  lemma MessageNeedsTimer(s: Screen, text: cstring)
    requires !s.error && !s.temp && s.InSync()
    ensures var r := ShowTempMessage(s, Some(text));
            (!r.error && !r.temp ==> r.InSync())
            <==> (!s.timer.Missing? || MessageRows(text) == (s.saved0, s.saved1))
  {
  }
}
