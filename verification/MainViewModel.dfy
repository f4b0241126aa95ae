/** MainViewModel.kt: the command cooldown, the environment history and the update progress. */
module MainViewModel {
  import opened Basics

  const REFRESH_MS := 30
  const MAX_HISTORY_SIZE := 50

  // ---- cooldown on values ---------------------------------------------------------------------------

  /** The cooldown coroutine between two of its delays: what is left and what it started from. */
  datatype Job = NoJob | Counting(remaining: int, total: int)

  datatype Lock = Lock(locked: bool, progress: real, job: Job, enabled: bool, durationSec: int, reconnecting: bool)

  function Fraction(remaining: int, total: int): real
    requires total > 0
  {
    remaining as real / total as real
  }

  lemma FractionBounds(remaining: int, total: int)
    requires 0 < remaining <= total
    ensures 0.0 < Fraction(remaining, total) <= 1.0
  {
    assert Fraction(remaining, total) * total as real == remaining as real;
  }

  function StartCooldown(l: Lock): Lock {
    var total := l.durationSec * 1000;
    if total > 0 then l.(locked := true, progress := Fraction(total, total), job := Counting(total, total))
    else l.(locked := false, progress := 0.0, job := NoJob)
  }

  /** One refresh delay has passed. */
  function Tick(l: Lock): Lock {
    if l.job.NoJob? then l
    else
      var left := l.job.remaining - REFRESH_MS;
      if left > 0 && l.job.total > 0
      then l.(job := l.job.(remaining := left), progress := Fraction(left, l.job.total))
      else l.(locked := false, progress := 0.0, job := NoJob)
  }

  function Toggle(l: Lock): Lock { l.(locked := !l.locked, progress := 0.0, job := NoJob) }

  /** `delivered` is whether the socket took the command. */
  predicate Accepts(l: Lock, delivered: bool) { !l.locked && !l.reconnecting && delivered }

  function Send(l: Lock, delivered: bool): Lock {
    if Accepts(l, delivered) && l.enabled then StartCooldown(l) else l
  }

  datatype Event =
    | RefreshTick
    | UserCommand(delivered: bool)
    | ManualLock
    | SetDuration(seconds: int)
    | SetEnabled(on: bool)
    | SetReconnecting(on: bool)

  function Step(l: Lock, e: Event): Lock {
    match e
    case RefreshTick => Tick(l)
    case UserCommand(delivered) => Send(l, delivered)
    case ManualLock => Toggle(l)
    case SetDuration(seconds) => l.(durationSec := seconds)
    case SetEnabled(on) => l.(enabled := on)
    case SetReconnecting(on) => l.(reconnecting := on)
  }

  function Run(l: Lock, es: seq<Event>): Lock {
    if es == [] then l else Step(Run(l, es[..|es| - 1]), es[|es| - 1])
  }

  function CountTicks(es: seq<Event>): nat {
    if es == [] then 0 else CountTicks(es[..|es| - 1]) + if es[|es| - 1].RefreshTick? then 1 else 0
  }

  /** How many of the commands in the run were accepted. */
  function CountAccepted(l: Lock, es: seq<Event>): nat {
    if es == [] then 0
    else
      var e := es[|es| - 1];
      CountAccepted(l, es[..|es| - 1])
      + if e.UserCommand? && Accepts(Run(l, es[..|es| - 1]), e.delivered) then 1 else 0
  }

  /** ceil(1000 * D / 30), none for a duration that is not positive. */
  function CooldownTicks(durationSec: int): nat {
    if durationSec <= 0 then 0 else (durationSec * 1000 + REFRESH_MS - 1) / REFRESH_MS
  }

  predicate NoManualLock(es: seq<Event>) { forall i :: 0 <= i < |es| ==> !es[i].ManualLock? }

  /** A running countdown means a locked screen with the fraction left; without one the bar is empty. */
  predicate Consistent(l: Lock) {
    match l.job
    case NoJob => l.progress == 0.0
    case Counting(remaining, total) =>
      l.locked && 0 < remaining <= total && l.progress == Fraction(remaining, total)
  }

  lemma {:induction false} RunIsConsistent(l: Lock, es: seq<Event>)
    requires Consistent(l)
    ensures Consistent(Run(l, es))
    decreases |es|
  {
    if es != [] { RunIsConsistent(l, es[..|es| - 1]); }
  }

  /** In every run a bar that is not empty implies a locked screen, and it never exceeds one. */
  lemma ProgressImpliesLocked(l: Lock, es: seq<Event>)
    requires Consistent(l)
    ensures var r := Run(l, es); (r.progress != 0.0 ==> r.locked) && 0.0 <= r.progress <= 1.0
  {
    RunIsConsistent(l, es);
    var r := Run(l, es);
    if r.job.Counting? { FractionBounds(r.job.remaining, r.job.total); }
  }

  lemma {:induction false} CountdownState(l: Lock, es: seq<Event>)
    requires l.locked && l.job.Counting? && 0 < l.job.remaining == l.job.total && Consistent(l)
    requires NoManualLock(es) && CountTicks(es) * REFRESH_MS < l.job.total
    ensures var r := Run(l, es);
            r.locked && r.job == Counting(l.job.total - CountTicks(es) * REFRESH_MS, l.job.total)
    ensures CountAccepted(l, es) == 0
    decreases |es|
  {
    if es != [] {
      CountdownState(l, es[..|es| - 1]);
    }
  }

  /** After an accepted command started a cooldown of D seconds, and whatever happens short of a manual
      unlock, also a change of the duration: no command is accepted until ceil(1000 * D / 30) refresh
      ticks have passed, and with the last of them the screen unlocks. */
  lemma CooldownSeparatesCommands(before: Lock, es: seq<Event>)
    requires Consistent(before) && Accepts(before, true) && before.enabled && NoManualLock(es)
    ensures var l := Send(before, true);
            var n := CooldownTicks(before.durationSec);
            && (CountTicks(es) < n ==> Run(l, es).locked && CountAccepted(l, es) == 0)
            && (CountTicks(es) == n - 1 ==>
                  !Run(l, es + [RefreshTick]).locked && CountAccepted(l, es + [RefreshTick]) == 0)
            && (n == 0 ==> !l.locked)
  {
    var l := Send(before, true);
    var n := CooldownTicks(before.durationSec);
    if CountTicks(es) < n {
      CountdownState(l, es);
      assert (es + [RefreshTick])[..|es|] == es;
    }
  }

  // ---- the update screen on values ------------------------------------------------------------------

  datatype ScreenEvent = StatusText | Percent(value: int) | Replaced

  function AfterScreenEvent(screen: Option<int>, e: ScreenEvent): Option<int> {
    match e
    case StatusText => if screen.Some? then screen else Some(0)
    case Percent(value) => if screen.Some? then Some(value) else None
    case Replaced => None
  }

  /** What the update screen shows after it was opened and `es` happened. */
  function ScreenAfter(es: seq<ScreenEvent>): Option<int> {
    if es == [] then Some(0) else AfterScreenEvent(ScreenAfter(es[..|es| - 1]), es[|es| - 1])
  }

  /** The percentages among the events. */
  function PercentsIn(es: seq<ScreenEvent>): seq<int> {
    if es == [] then []
    else PercentsIn(es[..|es| - 1]) + if es[|es| - 1].Percent? then [es[|es| - 1].value] else []
  }

  /** The image is downloaded, with its status texts, before any of it is sent. */
  predicate DownloadFirst(es: seq<ScreenEvent>) {
    forall i :: 0 <= i < |es| && es[i].StatusText? ==> PercentsIn(es[..i]) == []
  }

  /** Whatever replaces the update screen meanwhile: while it is up it shows the latest percentage
      received, zero before the first. */
  lemma {:induction false} ScreenShowsLatest(es: seq<ScreenEvent>)
    requires DownloadFirst(es) && ScreenAfter(es).Some?
    ensures var got := PercentsIn(es); ScreenAfter(es).value == if got == [] then 0 else got[|got| - 1]
    decreases |es|
  {
    if es != [] {
      var init, e := es[..|es| - 1], es[|es| - 1];
      forall i | 0 <= i < |init| && init[i].StatusText? ensures PercentsIn(init[..i]) == [] {
        assert init[..i] == es[..i];
      }
      if !e.Percent? { assert PercentsIn(es) == PercentsIn(init); }
      if ScreenAfter(init).Some? { ScreenShowsLatest(init); }
    }
  }

  /** The screen is up unless something has replaced it since it was opened or a status text brought it back. */
  predicate ReplacedSince(es: seq<ScreenEvent>, i: nat)
    requires i < |es|
  {
    es[i].Replaced? && forall j :: i < j < |es| ==> !es[j].StatusText?
  }

  lemma {:induction false} ScreenUpUnlessReplaced(es: seq<ScreenEvent>)
    ensures ScreenAfter(es).None? <==> exists i :: 0 <= i < |es| && ReplacedSince(es, i)
    decreases |es|
  {
    if es != [] {
      var init, n := es[..|es| - 1], |es| - 1;
      ScreenUpUnlessReplaced(init);
      assert ReplacedSince(es, n) <==> es[n].Replaced?;
      forall i | 0 <= i < n ensures ReplacedSince(es, i) <==> ReplacedSince(init, i) && !es[n].StatusText? {
        assert forall j :: 0 <= j < n ==> es[j] == init[j];
      }
    }
  }

  // ---- the code -------------------------------------------------------------------------------------

  class ViewModel {
    var isUiLocked: bool
    var cooldownProgress: real
    var cooldownJob: Job
    var isCooldownEnabled: bool
    var cooldownDurationSec: int
    var isReconnecting: bool
    var envHistory: seq<int>
    ghost var envEvents: seq<int>      // every env event so far; readings are opaque here
    var firmwareUpdating: bool         // uiState is FirmwareUpdating
    var progressPercent: int

    constructor ()
      ensures View() == Lock(false, 0.0, NoJob, true, 5, false) && Consistent(View())
      ensures HistoryIsWindow() && envEvents == [] && !firmwareUpdating
    {
      isUiLocked, cooldownProgress, cooldownJob, isCooldownEnabled, cooldownDurationSec := false, 0.0, NoJob, true, 5;
      isReconnecting, envHistory, envEvents, firmwareUpdating, progressPercent := false, [], [], false, 0;
    }

    function View(): Lock
      reads this
    {
      Lock(isUiLocked, cooldownProgress, cooldownJob, isCooldownEnabled, cooldownDurationSec, isReconnecting)
    }

    method SendCommand(delivered: bool) returns (accepted: bool)
      modifies this`isUiLocked, this`cooldownProgress, this`cooldownJob
      ensures View() == Send(old(View()), delivered) && accepted == Accepts(old(View()), delivered)
    {
      if isUiLocked { return false; }
      if isReconnecting { return false; }
      if !delivered { return false; }
      if isCooldownEnabled { BeginCooldown(); }
      accepted := true;
    }

    /** startCooldown up to its first delay. */
    method BeginCooldown()
      modifies this`isUiLocked, this`cooldownProgress, this`cooldownJob
      ensures View() == StartCooldown(old(View()))
    {
      isUiLocked := true;
      var totalMs := cooldownDurationSec * 1000;
      if totalMs > 0 {
        cooldownProgress := Fraction(totalMs, totalMs);
        cooldownJob := Counting(totalMs, totalMs);
      } else {
        FinishCooldown();
      }
    }

    method FinishCooldown()
      modifies this`isUiLocked, this`cooldownProgress, this`cooldownJob
      ensures View() == old(View()).(locked := false, progress := 0.0, job := NoJob)
    {
      cooldownProgress := 0.0;
      isUiLocked := false;
      cooldownJob := NoJob;
    }

    /** The countdown loop from one delay to the next. */
    method CooldownTick()
      requires Consistent(View())
      modifies this`isUiLocked, this`cooldownProgress, this`cooldownJob
      ensures View() == Tick(old(View())) && Consistent(View())
    {
      if cooldownJob.NoJob? { return; }
      var remainingMs := cooldownJob.remaining - REFRESH_MS;
      if remainingMs > 0 {
        cooldownJob := cooldownJob.(remaining := remainingMs);
        cooldownProgress := Fraction(remainingMs, cooldownJob.total);
      } else {
        FinishCooldown();
      }
    }

    method ToggleUiLock()
      modifies this`isUiLocked, this`cooldownProgress, this`cooldownJob
      ensures View() == Toggle(old(View()))
    {
      cooldownJob := NoJob;
      cooldownProgress := 0.0;
      isUiLocked := !isUiLocked;
    }

    /** The history is the last 50 env events, all of them while there are fewer, in order. */
    ghost predicate HistoryIsWindow()
      reads this
    {
      envHistory == if |envEvents| <= 50 then envEvents else envEvents[|envEvents| - 50..]
    }

    method OnEnv(reading: int)
      requires HistoryIsWindow()
      modifies this`envHistory, this`envEvents
      ensures HistoryIsWindow() && envEvents == old(envEvents) + [reading]
    {
      envHistory := envHistory + [reading];
      envEvents := envEvents + [reading];
      if |envHistory| > MAX_HISTORY_SIZE { envHistory := envHistory[1..]; }
    }

    /** The percentage on the update screen, while that is what uiState holds. */
    function UpdateScreen(): Option<int>
      reads this
    {
      if firmwareUpdating then Some(progressPercent) else None
    }

    /** The percentage follows the event only while the update screen is up. */
    method OnOtaProgress(progress: int)
      modifies this`progressPercent
      ensures UpdateScreen() == AfterScreenEvent(old(UpdateScreen()), Percent(progress))
    {
      if firmwareUpdating { progressPercent := progress; }
    }

    /** A status text of the download brings the update screen back, at zero, if it was replaced. */
    method OnStatusText()
      modifies this`firmwareUpdating, this`progressPercent
      ensures UpdateScreen() == AfterScreenEvent(old(UpdateScreen()), StatusText)
    {
      if !firmwareUpdating { firmwareUpdating, progressPercent := true, 0; }
    }

    /** A connection event or a failed update puts another state in uiState. */
    method OnReplaced()
      modifies this`firmwareUpdating
      ensures UpdateScreen() == AfterScreenEvent(old(UpdateScreen()), Replaced)
    {
      firmwareUpdating := false;
    }

    method BeginFirmwareUpdate()
      modifies this`firmwareUpdating, this`progressPercent
      ensures UpdateScreen() == Some(0)
    {
      firmwareUpdating, progressPercent := true, 0;
    }
  }
}
