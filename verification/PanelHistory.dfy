/** What the panel of ui_manager.c must do, read off its events alone, and the calls of ui.c these make. */
module PanelHistory {
  import opened Basics
  import opened ScreenModel
  import opened UiManager

  /** The panel as the events find it. */
  datatype Start = Start(starts: nat, page: int, autoMode: bool, suspended: bool, created: bool)

  /** The last suspension or resume decides. */
  function SuspendedAt(from: Start, es: seq<Event>): bool {
    if es == [] then from.suspended
    else
      match es[|es| - 1]
      case SuspendCall => true
      case ResumeCall(_) => false
      case _ => SuspendedAt(from, es[..|es| - 1])
  }

  /** Long presses that found a carousel and no suspension. */
  function Switches(from: Start, es: seq<Event>): nat {
    if es == [] then 0
    else
      var before := es[..|es| - 1];
      Switches(from, before)
      + if es[|es| - 1].LongPress? && from.created && !SuspendedAt(from, before) then 1 else 0
  }

  /** Each of them changes the mode. */
  predicate AutoAt(from: Start, es: seq<Event>) { from.autoMode != (Switches(from, es) % 2 == 1) }

  /** A short press turns the page unless suspended; the carousel does so in auto mode only. */
  predicate TurnsPage(from: Start, before: seq<Event>, e: Event) {
    && from.created && !SuspendedAt(from, before)
    && (e.ShortPress? || (e.CarouselStep? && AutoAt(from, before)))
  }

  function PageTurns(from: Start, es: seq<Event>): nat {
    if es == [] then 0
    else
      var before := es[..|es| - 1];
      PageTurns(from, before) + if TurnsPage(from, before, es[|es| - 1]) then 1 else 0
  }

  /** Events that give the carousel a fresh period: entering auto mode, and in auto mode a short press or a
      resume. */
  predicate StartsTimer(from: Start, before: seq<Event>, e: Event) {
    && from.created
    && match e
       case LongPress => !SuspendedAt(from, before) && !AutoAt(from, before)
       case ShortPress(_) => !SuspendedAt(from, before) && AutoAt(from, before)
       case ResumeCall(_) => AutoAt(from, before)
       case _ => false
  }

  function TimerStarts(from: Start, es: seq<Event>): nat {
    if es == [] then 0
    else
      var before := es[..|es| - 1];
      TimerStarts(from, before) + if StartsTimer(from, before, es[|es| - 1]) then 1 else 0
  }

  /** The call of ui.c one event makes, if any: a turned or resumed page is rendered, a switch announces
      the mode it enters. */
  function Causes(from: Start, before: seq<Event>, e: Event): seq<Op> {
    match e
    case CarouselStep(c) => if TurnsPage(from, before, e) then [OpSetText(c.line0, c.line1)] else []
    case ShortPress(c) => if TurnsPage(from, before, e) then [OpSetText(c.line0, c.line1)] else []
    case LongPress =>
      if !from.created || SuspendedAt(from, before) then []
      else [OpTempMessage(Some(Ascii(if AutoAt(from, before) then "MODE: MANUAL" else "MODE: AUTO")))]
    case SuspendCall => []
    case ResumeCall(c) => [OpSetText(c.line0, c.line1)]
    case OtaProgress(name, current, total) => [OpBootProgress(name, current, total)]
    case Overlay(op) => [op]
  }

  function UiCalls(from: Start, es: seq<Event>): seq<Op> {
    if es == [] then []
    else
      var before := es[..|es| - 1];
      UiCalls(from, before) + Causes(from, before, es[|es| - 1])
  }

  ghost predicate StartsFrom(p: Panel, from: Start) {
    && from == Start(p.starts, p.page, p.autoMode, p.suspended, !p.scroll.Missing?)
    && 0 <= p.page < 6 && (from.created ==> p.Scrolling())
  }

  /** The carousel does not fire before its timer exists. */
  predicate Possible(from: Start, e: Event) { e.CarouselStep? ==> from.created }

  ghost predicate Follows(r: Panel, from: Start, es: seq<Event>) {
    && r.suspended == SuspendedAt(from, es)
    && r.autoMode == AutoAt(from, es)
    && r.page == (from.page + PageTurns(from, es)) % 6
    && r.starts == from.starts + TimerStarts(from, es)
    && (r.scroll.Missing? <==> !from.created)
    && (from.created ==> (r.scroll.Running? <==> AutoAt(from, es) && !SuspendedAt(from, es)))
  }

  lemma StepFollows(r: Panel, from: Start, es: seq<Event>, e: Event)
    requires Follows(r, from, es) && Possible(from, e)
    ensures Follows(Step(r, e), from, es + [e])
  {
    assert (es + [e])[..|es|] == es;
    PageStep(from.page + PageTurns(from, es), if TurnsPage(from, es, e) then 1 else 0);
  }

  lemma StepCauses(r: Panel, from: Start, es: seq<Event>, e: Event)
    requires Follows(r, from, es) && Possible(from, e)
    ensures var calls := Causes(from, es, e);
            Step(r, e).screen == if calls == [] then r.screen else Apply(r.screen, calls[0])
  {
  }

  lemma CallsStep(s: Screen, r: Panel, from: Start, es: seq<Event>, e: Event)
    requires Follows(r, from, es) && Possible(from, e) && r.screen == Run(s, UiCalls(from, es))
    ensures Step(r, e).screen == Run(s, UiCalls(from, es + [e]))
  {
    assert (es + [e])[..|es|] == es;
    StepCauses(r, from, es, e);
    var calls := Causes(from, es, e);
    if calls != [] {
      assert calls == [calls[0]];
      RunSnoc(s, UiCalls(from, es), calls[0]);
    } else {
      assert UiCalls(from, es) + [] == UiCalls(from, es);
    }
  }

  /** In every run: suspension, mode, page and timer are those of the events, and the screen is the one that
      exactly the calls made by the events leave. Before ui_manager_init the presses do nothing. */
  lemma {:induction false} PanelFollowsHistory(p: Panel, from: Start, es: seq<Event>)
    requires StartsFrom(p, from) && forall i :: 0 <= i < |es| ==> Possible(from, es[i])
    ensures Follows(RunEvents(p, es), from, es)
    ensures RunEvents(p, es).screen == Run(p.screen, UiCalls(from, es))
    decreases |es|
  {
    if es != [] {
      var before, e := es[..|es| - 1], es[|es| - 1];
      PanelFollowsHistory(p, from, before);
      assert es == before + [e];
      StepFollows(RunEvents(p, before), from, before, e);
      CallsStep(p.screen, RunEvents(p, before), from, before, e);
    }
  }

  /** A long press in a run switches the mode and names the one it enters; suspended, it does neither. */
  lemma LongPressSwitches(p: Panel, from: Start, es: seq<Event>)
    requires StartsFrom(p, from) && from.created && forall i :: 0 <= i < |es| ==> Possible(from, es[i])
    ensures var s, r := RunEvents(p, es), RunEvents(p, es + [LongPress]);
            if SuspendedAt(from, es) then r == s
            else
              && r.autoMode != s.autoMode && r.page == s.page
              && (!s.screen.error ==>
                    r.screen.shown0 == Pad(Ascii(if r.autoMode then "MODE: AUTO" else "MODE: MANUAL"))
                    && r.screen.shown1 == Spaces(16))
  {
    PanelFollowsHistory(p, from, es);
    assert (es + [LongPress])[..|es|] == es;
  }

  /** ui_manager_init shows the first page and starts the carousel, in whatever state it finds the panel. */
  lemma BeginShowsPage(p: Panel, c: Content)
    ensures var r := Begin(p, c);
            && r.scroll.Running? && r.starts == p.starts + 1
            && r.page == p.page && r.autoMode == p.autoMode && r.suspended == p.suspended
            && r.screen == Run(p.screen, [OpSetText(c.line0, c.line1)])
  {
    assert [OpSetText(c.line0, c.line1)][..0] == [];
  }
}
