/** The buzzer and backlight of sys_ind.c and the button handlers that use them. */
module SysInd {
  import opened Basics
  import opened IoExpander
  import opened IoInput
  import opened UiManager

  const PIN_BACKLIGHT: pin := 3
  const PIN_BUZZER: pin := 4
  const LED_PINS: seq<pin> := [0, 2, 1]
  const BUTTON_PINS: seq<pin> := [5, 6, 7]   // the registry: RESET, MENU, BACKLIGHT
  const BACKLIGHT_BUTTON := 2

  // ---- beep automaton on values -------------------------------------------------------------------

  datatype Buzzer = Buzzer(counter: int, on: bool, running: bool)

  function Sounded(count: int): Buzzer { Buzzer(count * 2 - 1, true, true) }

  /** One firing of the periodic timer; a stopped timer does not fire. */
  function Tick(b: Buzzer): Buzzer {
    if !b.running then b
    else if b.counter > 0 then b.(counter := b.counter - 1, on := !b.on)
    else b.(on := false, running := false)
  }

  function Ticks(b: Buzzer, n: nat): Buzzer
    decreases n
  {
    if n == 0 then b else Ticks(Tick(b), n - 1)
  }

  /** In how many of the next `n` timer periods the buzzer is on. */
  function OnPeriods(b: Buzzer, n: nat): nat
    decreases n
  {
    if n == 0 then 0 else (if b.on then 1 else 0) + OnPeriods(Tick(b), n - 1)
  }

  /** A call for n beeps is on for exactly n of the next 2n periods, one of every two, and then the
      buzzer is stopped and silent for good. */
  lemma {:induction false} BeepsExactly(n: nat, more: nat)
    requires n >= 1
    ensures OnPeriods(Sounded(n), 2 * n) == n
    ensures var b := Ticks(Sounded(n), 2 * n); !b.on && !b.running && Ticks(b, more) == b
    decreases n
  {
    var first := Tick(Sounded(n));
    var second := Tick(first);
    assert OnPeriods(Sounded(n), 2 * n) == 1 + OnPeriods(first, 2 * n - 1);
    assert OnPeriods(first, 2 * n - 1) == OnPeriods(second, 2 * n - 2);
    assert Ticks(Sounded(n), 2 * n) == Ticks(first, 2 * n - 1) == Ticks(second, 2 * n - 2);
    if n == 1 {
      StaysStopped(second, more);
    } else {
      assert second == Sounded(n - 1);
      BeepsExactly(n - 1, more);
    }
  }

  lemma {:induction false} StaysStopped(b: Buzzer, n: nat)
    requires !b.running
    ensures Ticks(b, n) == b
    decreases n
  {
    if n > 0 { StaysStopped(b, n - 1); }
  }

  datatype BuzzerEvent = Fire | Sound(count: int)

  function After(events: seq<BuzzerEvent>): Buzzer {
    if events == [] then Buzzer(0, false, false)
    else
      var e := events[|events| - 1];
      if e.Sound? then Sounded(e.count) else Tick(After(events[..|events| - 1]))
  }

  /** Over every mix of firings and calls, also calls that restart a sequence midway: while the timer
      runs the buzzer is on iff the counter is odd, and a stopped timer means silence. */
  lemma {:induction false} OnIffCounterOdd(events: seq<BuzzerEvent>)
    ensures var b := After(events); if b.running then b.on <==> b.counter % 2 == 1 else !b.on
    decreases |events|
  {
    if events != [] {
      OnIffCounterOdd(events[..|events| - 1]);
    }
  }

  /** A call with no beeps to make is still audible: it turns the buzzer on for one period. Every call
      makes exactly max(1, count) beeps, so it makes the requested number iff that is at least one. */
  lemma ZeroBeepsStillBeep(count: int, more: nat)
    ensures count <= 0 ==> OnPeriods(Sounded(count), 2 + more) == 1
    ensures count >= 1 ==> OnPeriods(Sounded(count), 2 * count + more) == count
  {
    if count <= 0 {
      var b := Tick(Sounded(count));
      SilentWhenStopped(b, 1 + more);
    } else {
      BeepsExactly(count, more);
      OnPeriodsSplit(Sounded(count), 2 * count, more);
      SilentWhenStopped(Ticks(Sounded(count), 2 * count), more);
    }
  }

  lemma {:induction false} SilentWhenStopped(b: Buzzer, n: nat)
    requires !b.on && !b.running
    ensures OnPeriods(b, n) == 0
    decreases n
  {
    if n > 0 { SilentWhenStopped(b, n - 1); }
  }

  lemma {:induction false} OnPeriodsSplit(b: Buzzer, n: nat, m: nat)
    ensures OnPeriods(b, n + m) == OnPeriods(b, n) + OnPeriods(Ticks(b, n), m)
    decreases n
  {
    if n > 0 { OnPeriodsSplit(Tick(b), n - 1, m); }
  }

  // ---- the code -----------------------------------------------------------------------------------

  class Indicators {
    const expander: Expander
    var timerCreated: bool
    var timerRunning: bool
    var beepCounter: int
    var buzzerState: bool

    constructor (expander: Expander)
      ensures this.expander == expander && View() == Buzzer(0, false, false) && !timerCreated
    {
      this.expander := expander;
      timerCreated, timerRunning, beepCounter, buzzerState := false, false, 0, false;
    }

    function View(): Buzzer
      reads this
    {
      Buzzer(beepCounter, buzzerState, timerRunning)
    }

    /** The buzzer pin was last asked for the level that matches the state: on is low. */
    ghost predicate Valid()
      reads this, expander
    {
      expander.Valid() && expander.ready && LastLevel(expander.calls, 4) == !buzzerState
    }

    /** sys_ind_init: the timers, then every LED on and off again, red, green and orange, then the heartbeat
        task. Without that task the LEDs are off and the timers there all the same. */
    method Init(timersCreated: bool, taskCreated: bool) returns (ok: bool)
      requires Valid() && !timerRunning
      modifies this`timerCreated, expander
      ensures Valid() && timerCreated == timersCreated && ok == (timersCreated && taskCreated)
      ensures timersCreated ==>
                expander.calls == old(expander.calls)
                + [Call(0, false), Call(2, false), Call(1, false), Call(0, true), Call(2, true), Call(1, true)]
      ensures !timersCreated ==> expander.calls == old(expander.calls)
    {
      timerCreated := timersCreated;
      if !timersCreated { return false; }
      SetLeds(true);
      SetLeds(false);
      ok := taskCreated;
    }

    /** An LED is on at a low level. */
    method SetLeds(on: bool)
      requires Valid()
      modifies expander
      ensures Valid()
      ensures expander.calls == old(expander.calls) + [Call(0, !on), Call(2, !on), Call(1, !on)]
    {
      ghost var before := expander.calls;
      for i := 0 to |LED_PINS|
        invariant Valid() && expander.calls == before + [Call(0, !on), Call(2, !on), Call(1, !on)][..i]
      {
        LastLevelSnoc(expander.calls, Call(LED_PINS[i], !on), 4);
        var bus: bool := *;
        var ignored := expander.SetLevel(LED_PINS[i], !on, bus);
      }
    }

    method BuzzerSetState(on: bool, bus: bool)
      requires expander.Valid() && expander.ready
      modifies this`buzzerState, expander
      ensures Valid() && buzzerState == on && (bus ==> expander.UpToDate())
    {
      LastLevelSnoc(expander.calls, Call(PIN_BUZZER, !on), PIN_BUZZER);
      var ignored := expander.SetLevel(PIN_BUZZER, !on, bus);
      buzzerState := on;
    }

    method BuzzerCallback(bus: bool)
      requires Valid()
      modifies this, expander
      ensures Valid() && timerCreated == old(timerCreated)
      ensures View() == if old(timerRunning) then Tick(old(View())) else old(View())
      ensures old(timerRunning) && bus ==> Bit(expander.hardware, 4) == !buzzerState
    {
      if !timerRunning { return; }
      if beepCounter > 0 {
        BuzzerSetState(!buzzerState, bus);
        beepCounter := beepCounter - 1;
      } else {
        timerRunning := false;
        BuzzerSetState(false, bus);
      }
    }

    /** The counter must not overflow an int. */
    method BuzzerSound(count: int, bus: bool)
      requires Valid() && -0x4000_0000 < count <= 0x4000_0000
      modifies this, expander
      ensures Valid() && timerCreated == old(timerCreated)
      ensures View() == if timerCreated then Sounded(count) else old(View())
      ensures timerCreated && bus ==> !Bit(expander.hardware, 4)
    {
      if !timerCreated { return; }
      timerRunning := false;
      beepCounter := count * 2 - 1;
      BuzzerSetState(true, bus);
      timerRunning := true;              // xTimerChangePeriod, or xTimerReset when that fails
    }
  }

  class Backlight {
    const expander: Expander
    var off: bool                        // lcd_backlight_off
    ghost var clicks: seq<Action>

    constructor (expander: Expander)
      requires expander.Valid() && expander.ready && LastLevel(expander.calls, PIN_BACKLIGHT)
      ensures this.expander == expander && clicks == [] && Valid()
    {
      this.expander := expander;
      off, clicks := false, [];
    }

    /** The backlight is lit after an even number of short clicks and dark after an odd number. */
    ghost predicate Valid()
      reads this, expander
    {
      && expander.Valid() && expander.ready
      && off == (CountShort(clicks) % 2 == 1)
      && LastLevel(expander.calls, 3) == !off
    }

    /** on_lcd_toggle_backlight: the flag and the request change together whatever the bus does. */
    method OnToggle(action: Action, bus: bool)
      requires Valid()
      modifies this, expander
      ensures Valid() && clicks == old(clicks) + [action]
    {
      ClickFlips(clicks, action);
      clicks := clicks + [action];
      if action == Short {
        LastLevelSnoc(expander.calls, Call(PIN_BACKLIGHT, off), PIN_BACKLIGHT);
        var ignored := expander.SetLevel(PIN_BACKLIGHT, off, bus);
        off := !off;
      }
    }

    /** A call of another task on its own pin leaves the backlight's request alone. */
    method OthersCall(call: Call, bus: bool)
      requires Valid() && call.p != PIN_BACKLIGHT
      modifies expander
      ensures Valid()
    {
      LastLevelSnoc(expander.calls, call, PIN_BACKLIGHT);
      var ignored := expander.SetLevel(call.p, call.level, bus);
    }

    /** The callbacks a poll made, over a bus that may lose any of the writes. */
    method Deliver(all: seq<Action>, seen: nat)
      requires Valid() && clicks <= all && seen == |clicks|
      modifies this, expander
      ensures Valid() && clicks == all
    {
      for i := seen to |all|
        invariant Valid() && clicks == all[..i]
      {
        var bus: bool := *;
        OnToggle(all[i], bus);
      }
    }
  }

  lemma ClickFlips(clicks: seq<Action>, action: Action)
    ensures (CountShort(clicks + [action]) % 2 == 1) == ((CountShort(clicks) % 2 == 1) != action.Short?)
  {
    assert (clicks + [action])[..|clicks|] == clicks;
  }

  /** on_menu_btn_click: a long hold toggles the mode, a short one turns the page, a factory hold neither. */
  method OnMenuClick(manager: Manager, action: Action, c: Content)
    requires manager.Valid()
    modifies manager, manager.ui, manager.ui.lcd
    ensures manager.Valid()
    ensures manager.View() == match action
                              case Long => ModeSwitched(old(manager.View()))
                              case Short => PageAdvanced(old(manager.View()), c)
                              case Factory => old(manager.View())
  {
    if action == Long { manager.SwitchMode(); }
    else if action == Short { manager.ManualMode(c); }
  }

  /** No hold in the trace reaches 2^31 ms. */
  ghost predicate HoldsFit(polls: seq<Poll>) {
    forall i, p :: 0 <= i < |polls| && p in BUTTON_PINS ==> Hold(ReadsOf(polls[..i], p)) + INTERVAL_MS <= INT_MAX
  }

  /** A poll of the buttons, or a call some other task makes on its own pin. */
  datatype PanelEvent = PollTurn(poll: Poll) | OtherCall(call: Call, bus: bool)

  function PollsOf(es: seq<PanelEvent>): seq<Poll> {
    if es == [] then []
    else
      var last := es[|es| - 1];
      PollsOf(es[..|es| - 1]) + if last.PollTurn? then [last.poll] else []
  }

  lemma {:induction false} PollsPrefix(es: seq<PanelEvent>, i: nat)
    requires i <= |es|
    ensures PollsOf(es[..i]) <= PollsOf(es)
    ensures i < |es| && es[i].PollTurn? ==> PollsOf(es[..i]) + [es[i].poll] <= PollsOf(es)
    decreases |es|
  {
    if i == |es| {
      assert es[..i] == es;
    } else {
      var init := es[..|es| - 1];
      assert init[..i] == es[..i];
      PollsPrefix(init, i);
    }
  }

  lemma PollsSnoc(es: seq<PanelEvent>, i: nat)
    requires i < |es|
    ensures PollsOf(es[..i + 1]) == PollsOf(es[..i]) + if es[i].PollTurn? then [es[i].poll] else []
  {
    assert es[..i + 1][..i] == es[..i];
  }

  /** From the button to the light: after any poll trace with failed reads, with any writes lost and any
      calls of other tasks on other pins in between, the backlight is requested on iff the trace held an
      even number of presses of its button. */
  method BacklightFollowsPresses(expander: Expander, es: seq<PanelEvent>)
    requires expander.Valid() && expander.ready && expander.calls == [] && HoldsFit(PollsOf(es))
    requires forall i :: 0 <= i < |es| && es[i].OtherCall? ==> es[i].call.p != 3
    modifies expander
    ensures expander.Valid()
    ensures LastLevel(expander.calls, 3) == (|Runs(ReadsOf(PollsOf(es), 7))| % 2 == 0)
  {
    var input := new Input(BUTTON_PINS);
    var light := new Backlight(expander);
    assert input.Tracks(BACKLIGHT_BUTTON, ReadsOf([], input.pins[BACKLIGHT_BUTTON]));
    for i := 0 to |es|
      invariant fresh(input) && fresh(input.holdTimers) && fresh(light) && light.expander == expander
      invariant input.Valid() && input.pins == BUTTON_PINS && input.polls == PollsOf(es[..i])
      invariant light.Valid() && light.clicks == input.emitted[BACKLIGHT_BUTTON]
    {
      PollsSnoc(es, i);
      match es[i] {
        case PollTurn(poll) =>
          PollsPrefix(es, i);
          HoldsBelowLimit(input, PollsOf(es));
          PollAndToggle(input, light, poll);
        case OtherCall(call, bus) => light.OthersCall(call, bus);
      }
    }
    assert es[..|es|] == es;
    assert input.Tracks(BACKLIGHT_BUTTON, ReadsOf(PollsOf(es), input.pins[BACKLIGHT_BUTTON]));
    ShortClicksCountRuns(ReadsOf(PollsOf(es), 7));
  }

  lemma HoldsBelowLimit(input: Input, polls: seq<Poll>)
    requires input.Valid() && input.pins == BUTTON_PINS && HoldsFit(polls) && input.polls < polls
    ensures forall b :: 0 <= b < 3 ==> input.holdTimers[b] + INTERVAL_MS <= INT_MAX
  {
    var n := |input.polls|;
    assert polls[..n] == input.polls;
    forall b | 0 <= b < 3 ensures input.holdTimers[b] + INTERVAL_MS <= INT_MAX {
      assert input.Tracks(b, ReadsOf(polls[..n], BUTTON_PINS[b])) && BUTTON_PINS[b] in BUTTON_PINS;
    }
  }

  /** One poll and the callbacks it makes on the backlight button. */
  method PollAndToggle(input: Input, light: Backlight, poll: Poll)
    requires input.Valid() && input.pins == BUTTON_PINS && light.Valid()
    requires light.clicks == input.emitted[BACKLIGHT_BUTTON]
    requires forall b :: 0 <= b < 3 ==> input.holdTimers[b] + INTERVAL_MS <= INT_MAX
    modifies input, input.holdTimers, light, light.expander
    ensures input.Valid() && input.polls == old(input.polls) + [poll] && input.holdTimers == old(input.holdTimers)
    ensures light.Valid() && light.clicks == input.emitted[BACKLIGHT_BUTTON]
  {
    EmittedGrows(input.polls, poll, 7);
    assert input.Tracks(BACKLIGHT_BUTTON, ReadsOf(input.polls, input.pins[BACKLIGHT_BUTTON]));
    var seen := |input.emitted[BACKLIGHT_BUTTON]|;
    input.PollOnce(poll);
    assert input.Tracks(BACKLIGHT_BUTTON, ReadsOf(input.polls, input.pins[BACKLIGHT_BUTTON]));
    light.Deliver(input.emitted[BACKLIGHT_BUTTON], seen);
  }

  lemma EmittedGrows(polls: seq<Poll>, poll: Poll, p: pin)
    ensures Actions(ReadsOf(polls, p)) <= Actions(ReadsOf(polls + [poll], p))
  {
    ReadsSnoc(polls, poll, p);
    if poll.Port? {
      Snoc(ReadsOf(polls, p), !Bit(poll.value, p));
    } else {
      assert ReadsOf(polls, p) + [] == ReadsOf(polls, p);
    }
  }
}
