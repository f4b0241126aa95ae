/** ui.c over the real driver and controller. The view of a Ui is what its fields say together with
    what the controller shows, so every contract below speaks about the visible characters. */
module Ui {
  import opened Basics
  import opened Hd44780
  import opened LcdWire
  import opened ScreenModel
  import LcdDriver
  import LcdScreen
  import LcdStartup
  import ScreenHistory

  const RECTANGLE_FULL: seq<byte> := [0x1F, 0x1F, 0x1F, 0x1F, 0x1F, 0x1F, 0x1F, 0x1F]
  const DEGREE: seq<byte> := [0x06, 0x09, 0x09, 0x06, 0x00, 0x00, 0x00, 0x00]

  /** Icon slots 1 and 2 hold the glyphs ui_init loaded. */
  predicate IconsLoaded(c: Chip) {
    |c.cgram| == 64 && c.cgram[8..16] == RECTANGLE_FULL && c.cgram[16..24] == DEGREE
  }

  class Ui {
    const lcd: LcdDriver.Lcd
    var savedLine0: cstring
    var savedLine1: cstring
    var isErrorActive: bool
    var isTempActive: bool
    var timer: Timer

    ghost predicate Valid()
      reads this, lcd
    {
      && lcd.Valid() && lcd.healthy
      && lcd.display.chip.Ready() && !En(lcd.display.line)
      && IconsLoaded(lcd.display.chip)
      && |savedLine0| == WIDTH && |savedLine1| == WIDTH
    }

    ghost function View(): Screen
      requires Valid()
      reads this, lcd
    {
      Screen(savedLine0, savedLine1, isErrorActive, isTempActive, timer,
             lcd.display.chip.Visible(0), lcd.display.chip.Visible(1))
    }

    /** Statics before ui_init has run. */
    constructor (lcd: LcdDriver.Lcd)
      ensures this.lcd == lcd && savedLine0 == Spaces(WIDTH) && savedLine1 == Spaces(WIDTH)
      ensures !isErrorActive && !isTempActive && timer == Missing
    {
      this.lcd := lcd;
      savedLine0, savedLine1 := Spaces(WIDTH), Spaces(WIDTH);
      isErrorActive, isTempActive, timer := false, false, Missing;
    }

    /** A complete delivery of `sends` on a ready display executes exactly them. */
    lemma Executed(before: Display, sent: seq<byte>, sends: seq<Send>)
      requires lcd.Valid() && before == Feed(lcd.start, sent) && lcd.wire == sent + Encode(sends)
      requires before.chip.Valid() && before.chip.Aligned() && !En(before.line) && AllKeepFourBit(sends)
      ensures lcd.display.chip == TransmitAll(before.chip, sends) && !En(lcd.display.line)
    {
      lcd.Moved(before, sent, Encode(sends));
      FeedEncode(before, sends);
    }

    /** lcd_driver_set_cursor(0, row); lcd_driver_print(text). */
    method Draw(row: byte, text: cstring)
      requires Valid() && row < 2 && |text| <= WIDTH
      modifies lcd
      ensures Valid()
      ensures lcd.display.chip.Visible(row) == text + old(lcd.display.chip.Visible(row))[|text|..]
      ensures lcd.display.chip.Visible(1 - row) == old(lcd.display.chip.Visible(1 - row))
    {
      ghost var d, w := lcd.display, lcd.wire;
      var ok := lcd.SetCursor(0, row);
      ok := lcd.Print(text);
      EncodeConcat([LcdScreen.CursorCommand(0, row)], Texts(text));
      assert lcd.wire == w + Encode(LcdScreen.DrawSends(row, text));
      LcdScreen.DrawKeepsFourBit(row, text);
      Executed(d, w, LcdScreen.DrawSends(row, text));
      LcdScreen.DrawShows(d.chip, row, text);
    }

    method Clear()
      requires Valid()
      modifies lcd
      ensures Valid()
      ensures lcd.display.chip.Visible(0) == lcd.display.chip.Visible(1) == seq(COLUMNS, i => BLANK)
    {
      ghost var d, w := lcd.display, lcd.wire;
      var ok := lcd.Clear();
      Executed(d, w, [LcdScreen.CLEAR]);
      LcdScreen.ClearShows(d.chip);
    }

    /** lcd_driver_create_char on a display that is ready. */
    method LoadGlyph(slot: byte, glyph: seq<byte>) returns (ok: bool)
      requires lcd.Valid() && |glyph| == 8
      requires lcd.healthy ==> lcd.display.chip.Ready() && !En(lcd.display.line)
      modifies lcd
      ensures lcd.Valid()
      ensures lcd.healthy ==>
                ok && lcd.display.chip.Ready() && !En(lcd.display.line)
                && lcd.display.chip.cgram == LcdScreen.Splice(old(lcd.display.chip.cgram), slot % 8 * 8, glyph)
    {
      ghost var d, w := lcd.display, lcd.wire;
      ok := lcd.CreateChar(slot, glyph);
      if lcd.healthy {
        LcdScreen.GlyphKeepsFourBit(slot, glyph);
        Executed(d, w, LcdScreen.GlyphSends(slot, glyph));
        LcdScreen.GlyphStored(d.chip, slot, glyph);
      }
    }

    /** lcd_driver_init followed by the two icons. */
    method Prepare() returns (ok: bool)
      requires lcd.Valid()
      modifies lcd
      ensures lcd.Valid()
      ensures lcd.healthy ==>
                ok && lcd.display.chip.Ready() && !En(lcd.display.line) && IconsLoaded(lcd.display.chip)
    {
      ghost var d, w := lcd.display, lcd.wire;
      ok := lcd.Init();
      if !ok { return; }
      if lcd.healthy {
        lcd.Moved(d, w, LcdStartup.InitWrites());
        LcdStartup.InitFromAnyState(d);
      }
      ghost var cgram := lcd.display.chip.cgram;
      ok := LoadGlyph(1, RECTANGLE_FULL);
      if !ok { return; }
      ok := LoadGlyph(2, DEGREE);
      if lcd.healthy { IconSlots(cgram); }
    }

    /** ui_init. On an error-free bus it ends ready with both icons stored and a blank screen. */
    method Init(timerCreated: bool) returns (ok: bool)
      requires lcd.Valid()
      requires savedLine0 == Spaces(WIDTH) && savedLine1 == Spaces(WIDTH) && !isErrorActive && !isTempActive
      modifies this, lcd
      ensures lcd.healthy ==> ok && Valid() && View() == Initial().(timer := if timerCreated then Idle else Missing)
      ensures lcd.healthy ==>
                var glyphs := lcd.display.chip.cgram;
                && glyphs[8..16] == [0x1F, 0x1F, 0x1F, 0x1F, 0x1F, 0x1F, 0x1F, 0x1F]
                && glyphs[16..24] == [0x06, 0x09, 0x09, 0x06, 0x00, 0x00, 0x00, 0x00]
    {
      ok := Prepare();
      if !ok { return; }
      timer := if timerCreated then Idle else Missing;
      ghost var d, w := lcd.display, lcd.wire;
      var ignored := lcd.Clear();
      if lcd.healthy {
        Executed(d, w, [LcdScreen.CLEAR]);
        LcdScreen.ClearShows(d.chip);
      }
    }

    method SetTextInRow(row: byte, text: cstring)
      requires Valid() && row < 2
      modifies this, lcd
      ensures Valid() && View() == SetRow(old(View()), row, text)
    {
      var target := Pad(text);
      if row == 0 { savedLine0 := target; } else { savedLine1 := target; }
      if isErrorActive || isTempActive { return; }
      Draw(row, target);
    }

    method SetText(line0: cstring, line1: cstring)
      requires Valid()
      modifies this, lcd
      ensures Valid() && View() == ScreenModel.SetText(old(View()), line0, line1)
    {
      SetTextInRow(0, line0);
      SetTextInRow(1, line1);
    }

    method RestoreScreen()
      requires Valid()
      modifies this, lcd
      ensures Valid() && View() == Restore(old(View()))
    {
      isErrorActive := false;
      Draw(0, savedLine0);
      Draw(1, savedLine1);
    }

    /** The kernel's side of the one-shot timer followed by ui_restore_timer_callback. */
    method TimerExpires()
      requires Valid()
      modifies this, lcd
      ensures Valid() && View() == TimerFires(old(View()))
    {
      if timer.Running? {
        timer := Idle;
        isTempActive := false;
        RestoreScreen();
      }
    }

    method ShowBootProgress(taskName: cstring, step: int, totalSteps: int)
      requires Valid()
      requires Clamp(step, if totalSteps <= 0 then 1 else totalSteps) * 16 < 0x8000_0000   // no int overflow
      modifies this, lcd
      ensures Valid() && View() == ScreenModel.ShowBootProgress(old(View()), taskName, step, totalSteps)
    {
      var total := if totalSteps <= 0 then 1 else totalSteps;
      var done := if step < 0 then 0 else step;
      if done > total { done := total; }
      var blocks := done * 16 / total;
      var line1: cstring := [];
      for i := 0 to 16
        invariant |line1| == i
        invariant forall j :: 0 <= j < i ==> line1[j] == if j < blocks then BAR else BLANK
      {
        line1 := line1 + [if i < blocks then BAR else BLANK];
      }
      assert line1 == Bar(step, totalSteps);
      SetText(Pad(taskName), line1);
    }

    /** A cleared screen with two short lines shows them padded. */
    method ClearAndDraw(l0: cstring, l1: cstring)
      requires Valid() && |l0| <= WIDTH && |l1| <= WIDTH
      modifies lcd
      ensures Valid()
      ensures lcd.display.chip.Visible(0) == Pad(l0) && lcd.display.chip.Visible(1) == Pad(l1)
    {
      Clear();
      Draw(0, l0);
      Draw(1, l1);
    }

    method ShowError(msg: cstring)
      requires Valid()
      modifies this, lcd
      ensures Valid() && View() == ScreenModel.ShowError(old(View()), msg)
    {
      isErrorActive := true;
      ClearAndDraw(ERROR_TITLE, Take(msg, WIDTH));
    }

    /** `err` is the unsigned value printf("%X") sees. */
    method ShowTempError(text: Option<cstring>, err: nat)
      requires Valid() && err < 0x1_0000_0000
      modifies this, lcd
      ensures Valid() && View() == ScreenModel.ShowTempError(old(View()), text, err)
    {
      if text.None? { return; }
      isTempActive := true;
      ErrorCodeFits(err);
      ClearAndDraw(Pad(text.value), ErrorCode(err));
      StartTimer();
    }

    method StartTimer()
      modifies this
      ensures timer == if old(timer).Missing? then Missing else Running
      ensures savedLine0 == old(savedLine0) && savedLine1 == old(savedLine1)
      ensures isErrorActive == old(isErrorActive) && isTempActive == old(isTempActive)
    {
      if !timer.Missing? { timer := Running; }
    }

    /** The shared tail of the two temporary messages: draw without persisting, then arm the timer. */
    method DrawTemporary(l0: cstring, l1: cstring)
      requires Valid() && |l0| == WIDTH && |l1| == WIDTH
      modifies this, lcd
      ensures Valid() && View() == ShowTempRows(old(View()), (l0, l1))
    {
      Draw(0, l0);
      Draw(1, l1);
      if !timer.Missing? {
        isTempActive := true;
        StartTimer();
      }
    }

    method ShowTempMessage(text: Option<cstring>)
      requires Valid()
      modifies this, lcd
      ensures Valid() && View() == ScreenModel.ShowTempMessage(old(View()), text)
    {
      if text.None? || isErrorActive { return; }
      var l0, l1;
      if |text.value| <= WIDTH {
        l0, l1 := Pad(text.value), Spaces(WIDTH);
      } else {
        l0, l1 := text.value[..WIDTH], Pad(text.value[WIDTH..]);
      }
      DrawTemporary(l0, l1);
    }

    method ShowSplitTempMessage(first: Option<cstring>, second: Option<cstring>)
      requires Valid()
      modifies this, lcd
      ensures Valid() && View() == ScreenModel.ShowSplitTempMessage(old(View()), first, second)
    {
      if first.None? || second.None? || isErrorActive { return; }
      DrawTemporary(Pad(first.value), Pad(second.value));
    }

    method ShowTempCmdMessage(text: cstring)
      requires Valid()
      modifies this, lcd
      ensures Valid() && View() == ScreenModel.ShowTempMessage(old(View()), Some(CommandMessage(text)))
    {
      ShowTempMessage(Some(CommandMessage(text)));
    }

    method Perform(op: Op)
      requires Valid() && Callable(op)
      modifies this, lcd
      ensures Valid() && View() == Apply(old(View()), op)
    {
      match op {
        case OpSetText(a, b) => SetText(a, b);
        case OpBootProgress(name, step, total) => ShowBootProgress(name, step, total);
        case OpRestore => RestoreScreen();
        case OpTimer => TimerExpires();
        case OpError(msg) => ShowError(msg);
        case OpTempError(text, err) => ShowTempError(text, err);
        case OpTempMessage(text) => ShowTempMessage(text);
        case OpSplitMessage(a, b) => ShowSplitTempMessage(a, b);
        case OpCommandMessage(cmd) => ShowTempCmdMessage(cmd);
      }
    }
  }

  lemma ErrorCodeFits(err: nat)
    requires err < 0x1_0000_0000
    ensures |ErrorCode(err)| <= WIDTH
  {
    assert Power16(8) == 0x1_0000_0000;
    HexLength(err, 8);
  }

  /** The two glyph slots do not overlap: storing slot 2 keeps slot 1. */
  lemma IconSlots(cgram: seq<byte>)
    requires |cgram| == 64
    ensures var r := LcdScreen.Splice(LcdScreen.Splice(cgram, 8, RECTANGLE_FULL), 16, DEGREE);
            |r| == 64 && r[8..16] == RECTANGLE_FULL && r[16..24] == DEGREE
  {
  }

  /** The boot order of main.c and then any calls and timer firings, on an error-free bus and any
      prior display state: the real screen follows the specification step by step. */
  method BootAndRun(before: Display, ops: seq<Op>) returns (ui: Ui)
    requires before.chip.Valid()
    requires forall i :: 0 <= i < |ops| ==> Callable(ops[i])
    ensures fresh(ui) && ui.Valid() && ui.View() == Run(Initial(), ops)
    ensures !ui.isErrorActive && !ui.isTempActive ==>
              ui.lcd.display.chip.Visible(0) == Pad(LastText(ops, 0)) &&
              ui.lcd.display.chip.Visible(1) == Pad(LastText(ops, 1))
    ensures ui.isErrorActive <==> ScreenHistory.ErrorUp(ops)
    ensures ui.isTempActive <==> ScreenHistory.TimerUp(ops)
    ensures (ui.lcd.display.chip.Visible(0), ui.lcd.display.chip.Visible(1)) == ScreenHistory.LastDrawn(ops)
  {
    var lcd := new LcdDriver.Lcd(before, true);
    ui := new Ui(lcd);
    var ok := ui.Init(true);
    for i := 0 to |ops|
      invariant fresh(ui) && ui.lcd == lcd && fresh(lcd) && ui.Valid() && ui.View() == Run(Initial(), ops[..i])
    {
      assert ops[..i + 1][..i] == ops[..i];
      ui.Perform(ops[i]);
    }
    assert ops[..|ops|] == ops;
    VisibleAgreesWithSaved(ops);
    ScreenHistory.ScreenFollowsHistory(ops);
  }

  /** Arguments a C caller can pass: an unsigned error code, a bar whose product fits an int. */
  predicate Callable(op: Op) {
    match op
    case OpTempError(_, err) => err < 0x1_0000_0000
    case OpBootProgress(_, step, total) => Clamp(step, if total <= 0 then 1 else total) * 16 < 0x8000_0000
    case _ => true
  }
}
