/** ui_manager.c: carousel page, mode and suspension, over the screen it renders to. Page contents
    (clock, sensors, heap, network) come from outside and are arguments. */
module UiManager {
  import opened Basics
  import opened LcdWire
  import opened ScreenModel
  import opened Ui

  const PAGE_COUNT := 6

  /** What one rendering of the current page sets. */
  datatype Content = Content(line0: cstring, line1: cstring)

  /** `starts` counts how often the period of the carousel timer was started anew. */
  datatype Panel = Panel(page: int, autoMode: bool, suspended: bool, scroll: Timer, starts: nat, screen: Screen)
  {
    predicate Scrolling() { scroll.Running? <==> autoMode && !suspended }
  }

  function Render(p: Panel, c: Content): Panel { p.(screen := SetText(p.screen, c.line0, c.line1)) }

  function Advance(p: Panel, c: Content): Panel { Render(p.(page := (p.page + 1) % PAGE_COUNT), c) }

  function Scrolled(p: Panel, c: Content): Panel {
    if p.autoMode && !p.suspended then Advance(p, c) else p
  }

  function TimerStarted(p: Panel): Panel { p.(scroll := Running, starts := p.starts + 1) }

  function Begin(p: Panel, c: Content): Panel { Render(TimerStarted(p), c) }

  function ModeSwitched(p: Panel): Panel {
    if p.suspended || p.scroll.Missing? then p
    else
      var message := Ascii(if p.autoMode then "MODE: MANUAL" else "MODE: AUTO");
      var shown := p.(autoMode := !p.autoMode, screen := ShowTempMessage(p.screen, Some(message)));
      if p.autoMode then shown.(scroll := Idle) else TimerStarted(shown)
  }

  function PageAdvanced(p: Panel, c: Content): Panel {
    if p.suspended || p.scroll.Missing? then p
    else if p.autoMode then TimerStarted(Advance(p, c))
    else Advance(p, c)
  }

  function Suspended(p: Panel): Panel {
    p.(suspended := true, scroll := if p.scroll.Missing? then Missing else Idle)
  }

  function Resumed(p: Panel, c: Content): Panel {
    var open := p.(suspended := false);
    Render(if p.autoMode && !p.scroll.Missing? then TimerStarted(open) else open, c)
  }

  class Manager {
    const ui: Ui
    var currentPage: int
    var autoMode: bool
    var isSuspended: bool
    var scroll: Timer
    ghost var starts: nat

    constructor (ui: Ui)
      ensures this.ui == ui && currentPage == 0 && autoMode && !isSuspended && scroll == Missing
    {
      this.ui := ui;
      currentPage, autoMode, isSuspended, scroll, starts := 0, true, false, Missing, 0;
    }

    ghost predicate Valid()
      reads this, ui, ui.lcd
    {
      ui.Valid() && 0 <= currentPage < PAGE_COUNT
    }

    ghost function View(): Panel
      requires Valid()
      reads this, ui, ui.lcd
    {
      Panel(currentPage, autoMode, isSuspended, scroll, starts, ui.View())
    }

    method RenderCurrentPage(c: Content)
      requires Valid()
      modifies ui, ui.lcd
      ensures Valid() && View() == Render(old(View()), c)
    {
      ui.SetText(c.line0, c.line1);
    }

    method AutoScroll(c: Content)
      requires Valid()
      modifies this, ui, ui.lcd
      ensures Valid() && View() == Scrolled(old(View()), c)
    {
      if autoMode && !isSuspended {
        currentPage := (currentPage + 1) % PAGE_COUNT;
        RenderCurrentPage(c);
      }
    }

    method Init(timerCreated: bool, c: Content) returns (ok: bool)
      requires Valid()
      modifies this, ui, ui.lcd
      ensures Valid() && ok == timerCreated
      ensures View() == if ok then Begin(old(View()), c) else old(View()).(scroll := Missing)
    {
      ok := timerCreated;
      if !ok {
        scroll := Missing;
        return;
      }
      StartTimer();
      RenderCurrentPage(c);
    }

    /** xTimerStart and xTimerReset: the timer runs, with a fresh period. */
    method StartTimer()
      modifies this`scroll, this`starts
      ensures scroll.Running? && starts == old(starts) + 1
    {
      scroll, starts := Running, starts + 1;
    }

    method SwitchMode()
      requires Valid()
      modifies this, ui, ui.lcd
      ensures Valid() && View() == ModeSwitched(old(View()))
    {
      if isSuspended || scroll.Missing? { return; }
      autoMode := !autoMode;
      if autoMode {
        ui.ShowTempMessage(Some(Ascii("MODE: AUTO")));
        StartTimer();
      } else {
        ui.ShowTempMessage(Some(Ascii("MODE: MANUAL")));
        scroll := Idle;
      }
    }

    method ManualMode(c: Content)
      requires Valid()
      modifies this, ui, ui.lcd
      ensures Valid() && View() == PageAdvanced(old(View()), c)
    {
      if isSuspended || scroll.Missing? { return; }
      currentPage := (currentPage + 1) % PAGE_COUNT;
      RenderCurrentPage(c);
      if autoMode { StartTimer(); }
    }

    method Suspend()
      requires Valid()
      modifies this
      ensures Valid() && View() == Suspended(old(View()))
    {
      isSuspended := true;
      if !scroll.Missing? { scroll := Idle; }
    }

    method Resume(c: Content)
      requires Valid()
      modifies this, ui, ui.lcd
      ensures Valid() && View() == Resumed(old(View()), c)
    {
      isSuspended := false;
      if autoMode && !scroll.Missing? { StartTimer(); }
      RenderCurrentPage(c);
    }
  }

  // ---- runs -----------------------------------------------------------------------------------

  /** Everything that reaches the panel once the manager runs. The carousel step may happen at any
      time, also from a callback queued before the timer was stopped. */
  datatype Event =
    | CarouselStep(c: Content)
    | LongPress
    | ShortPress(c: Content)
    | SuspendCall
    | ResumeCall(c: Content)
    | OtaProgress(name: cstring, current: int, total: int)
    | Overlay(op: Op)

  /** Overlays never set text: messages, errors, restores and the message timer. */
  predicate WellFormed(e: Event) { e.Overlay? ==> !SetsText(e.op) }

  ghost predicate AllWellFormed(es: seq<Event>) { forall i :: 0 <= i < |es| ==> WellFormed(es[i]) }

  function Step(p: Panel, e: Event): Panel {
    match e
    case CarouselStep(c) => Scrolled(p, c)
    case LongPress => ModeSwitched(p)
    case ShortPress(c) => PageAdvanced(p, c)
    case SuspendCall => Suspended(p)
    case ResumeCall(c) => Resumed(p, c)
    case OtaProgress(name, current, total) => p.(screen := ShowBootProgress(p.screen, name, current, total))
    case Overlay(op) => p.(screen := Apply(p.screen, op))
  }

  function RunEvents(p: Panel, es: seq<Event>): Panel {
    if es == [] then p else Step(RunEvents(p, es[..|es| - 1]), es[|es| - 1])
  }

  /** An advance is accepted when a carousel step finds auto mode, or a press finds no suspension. */
  predicate Accepted(p: Panel, e: Event) {
    (e.CarouselStep? && p.autoMode && !p.suspended) || (e.ShortPress? && !p.suspended && !p.scroll.Missing?)
  }

  function Advances(p: Panel, es: seq<Event>): nat {
    if es == [] then 0
    else
      var init := es[..|es| - 1];
      Advances(p, init) + if Accepted(RunEvents(p, init), es[|es| - 1]) then 1 else 0
  }

  /** ui_manager_init establishes "the carousel timer runs iff auto mode and not suspended" exactly
      when it runs unsuspended; suspended by an update that is already under way it starts the timer
      regardless. Before it there is no timer, so the mode is still the initial auto. */
  lemma InitStartsCarousel(p: Panel, c: Content)
    requires p.autoMode
    ensures Begin(p, c).Scrolling() <==> !p.suspended
  {
  }

  lemma PageStep(n: int, step: nat)
    requires step <= 1
    ensures (if step == 1 then (n % PAGE_COUNT + 1) % PAGE_COUNT else n % PAGE_COUNT) == (n + step) % PAGE_COUNT
  {
  }

  lemma CarouselKept(p: Panel, e: Event)
    requires !p.scroll.Missing? && p.Scrolling()
    ensures var r := Step(p, e);
            && !r.scroll.Missing? && r.Scrolling()
            && r.page == if Accepted(p, e) then (p.page + 1) % PAGE_COUNT else p.page
  {
  }

  lemma CarouselCounts(p: Panel, e: Event, n: nat)
    requires !p.scroll.Missing? && p.Scrolling() && p.page == n % PAGE_COUNT
    ensures var r := Step(p, e);
            !r.scroll.Missing? && r.Scrolling() && r.page == (n + if Accepted(p, e) then 1 else 0) % PAGE_COUNT
  {
    CarouselKept(p, e);
    PageStep(n, if Accepted(p, e) then 1 else 0);
  }

  /** In every run after such an init: the timer runs iff auto mode and not suspended, and the page is
      the initial page advanced by the accepted advances modulo 6. */
  lemma {:induction false} CarouselInvariant(p: Panel, es: seq<Event>)
    requires !p.scroll.Missing? && p.Scrolling() && 0 <= p.page < PAGE_COUNT
    ensures var r := RunEvents(p, es);
            !r.scroll.Missing? && r.Scrolling() && r.page == (p.page + Advances(p, es)) % PAGE_COUNT
  {
    if es != [] {
      var init := es[..|es| - 1];
      CarouselInvariant(p, init);
      CarouselCounts(RunEvents(p, init), es[|es| - 1], p.page + Advances(p, init));
    }
  }

  predicate NoResume(es: seq<Event>) { forall i :: 0 <= i < |es| ==> !es[i].ResumeCall? }

  /** The rows of the last progress call, or the rows saved before when there was none. */
  function LastProgress(p: Panel, es: seq<Event>): (cstring, cstring) {
    if es == [] then (p.screen.saved0, p.screen.saved1)
    else
      var e := es[|es| - 1];
      if e.OtaProgress? then (Pad(e.name), Bar(e.current, e.total)) else LastProgress(p, es[..|es| - 1])
  }

  lemma OverlayKeepsSaved(s: Screen, op: Op)
    requires !SetsText(op)
    ensures Apply(s, op).saved0 == s.saved0 && Apply(s, op).saved1 == s.saved1
  {
  }

  /** From suspension to the resume, only progress calls change the saved lines: whatever carousel
      steps, button presses and overlays come between, the saved lines are the latest bar, and outside
      overlays that bar is what is visible. */
  lemma {:induction false} SuspendedShowsLatestBar(p: Panel, es: seq<Event>)
    requires p.suspended && NoResume(es) && AllWellFormed(es) && ScreenHonest(p.screen)
    ensures var r := RunEvents(p, es);
            && r.suspended && r.page == p.page && r.autoMode == p.autoMode
            && (r.screen.saved0, r.screen.saved1) == LastProgress(p, es)
            && ScreenHonest(r.screen)
            && (!r.screen.error && !r.screen.temp ==> (r.screen.shown0, r.screen.shown1) == LastProgress(p, es))
  {
    if es != [] {
      var init, e := es[..|es| - 1], es[|es| - 1];
      SuspendedShowsLatestBar(p, init);
      assert RunEvents(p, es) == Step(RunEvents(p, init), e);
      if e.Overlay? {
        assert WellFormed(e);
        OverlayKeepsSaved(RunEvents(p, init).screen, e.op);
      }
      if e.OtaProgress? {
        PadIsIdempotent(e.name);
        assert Pad(Bar(e.current, e.total)) == Bar(e.current, e.total);
      } else {
        assert !e.ResumeCall?;
        assert LastProgress(p, es) == LastProgress(p, init);
      }
    }
  }

  /** What one call undoes: a suspension and its resume give back mode, page and carousel. */
  lemma SuspendResume(p: Panel, es: seq<Event>, c: Content)
    requires !p.suspended && !p.scroll.Missing? && p.Scrolling()
    requires NoResume(es) && AllWellFormed(es) && ScreenHonest(p.screen)
    ensures var r := Resumed(RunEvents(Suspended(p), es), c);
            && r.page == p.page && r.autoMode == p.autoMode && !r.suspended
            && (r.scroll.Running? <==> p.scroll.Running?)
            && (r.screen.saved0, r.screen.saved1) == (Pad(c.line0), Pad(c.line1))
  {
    SuspendedShowsLatestBar(Suspended(p), es);
    SuspendedTimerStays(Suspended(p), es);
  }

  lemma {:induction false} SuspendedTimerStays(p: Panel, es: seq<Event>)
    requires p.suspended && p.scroll.Idle? && NoResume(es)
    ensures RunEvents(p, es).suspended && RunEvents(p, es).scroll.Idle?
  {
    if es != [] {
      SuspendedTimerStays(p, es[..|es| - 1]);
    }
  }
}
