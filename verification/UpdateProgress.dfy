/** From the flash write to the phone: the progress of one update across all components. */
module UpdateProgress {
  import opened Basics
  import opened OtaUpdate
  import opened WsPipeline
  import opened MainViewModel
  import UiManager
  import ScreenModel

  /** What an update has offered so far is again such a trace, or still climbing. */
  lemma TracePrefix(trace: seq<int>, success: bool, n: nat)
    requires ProgressTrace(trace, success) && n <= |trace|
    ensures ProgressTrace(trace[..n], success && n == |trace|)
  {
    if n < |trace| {
      assert success ==> trace[..n] == trace[..|trace| - 1][..n];
    } else {
      assert trace[..n] == trace;
    }
  }

  /** Let one update offer its percentages through the event queue, at any point of the update and with any
      other producers, drops, failed sends and client switches interleaved. Whatever sockets a client has
      used, the percentages it received never go back, lie between 0 and 100, and are at most 52. */
  lemma ClientNeverSeesProgressGoBack(
    steps: seq<WsPipeline.Step>, ota: Task, sockets: set<int>, trace: seq<int>, success: bool)
    requires IsRun(steps) && OneOtaTask(steps, ota)
    requires ProgressTrace(trace, success) && Percents(After(steps).offered) <= trace
    ensures var got := Percents(WsPipeline.Received(After(steps).sent, sockets));
            && NonDecreasing(got) && |got| <= 52
            && forall i :: 0 <= i < |got| ==> 0 <= got[i] <= 100
  {
    var offered := Percents(After(steps).offered);
    var complete := success && |offered| == |trace|;
    var got := Percents(WsPipeline.Received(After(steps).sent, sockets));
    TracePrefix(trace, success, |offered|);
    assert trace[..|offered|] == offered;
    TraceNeverGoesBack(offered, complete);
    ReceivedIsSubsequenceOfOffered(steps, ota, sockets);
    SubsequenceKeepsOrder(got, offered);
    SubsequenceIsShorter(got, offered);
    TraceRange(offered, complete);
  }

  lemma TraceRange(events: seq<int>, success: bool)
    requires ProgressTrace(events, success)
    ensures forall x :: x in events ==> 0 <= x <= 100
  {
    if success {
      assert events == events[..|events| - 1] + [100];
    }
  }

  lemma {:induction false} SubsequenceIsShorter(a: seq<int>, b: seq<int>)
    requires Subsequence(a, b)
    ensures |a| <= |b|
    decreases |b|
  {
    if a != [] {
      if Subsequence(a, b[..|b| - 1]) {
        SubsequenceIsShorter(a, b[..|b| - 1]);
      } else {
        SubsequenceIsShorter(a[..|a| - 1], b[..|b| - 1]);
      }
    }
  }

  /** The display of a successful update: once the handler has announced completion, and until a resume,
      the bottom row is a full bar whenever no overlay covers it, whatever else reached the panel. */
  lemma FinishedUpdateShowsFullBar(p: UiManager.Panel, es: seq<UiManager.Event>, n: nat)
    requires p.suspended && UiManager.NoResume(es) && UiManager.AllWellFormed(es) && ScreenModel.ScreenHonest(p.screen)
    requires n > 0 && LastCall(es).Some? && LastCall(es).value.current == LastCall(es).value.total == n
    ensures var r := UiManager.RunEvents(p, es).screen;
            !r.error && !r.temp ==> |r.shown1| == 16 && forall i :: 0 <= i < 16 ==> r.shown1[i] == ScreenModel.BAR
  {
    var last := UiManager.LastProgress(p, es);
    var r := UiManager.RunEvents(p, es).screen;
    assert !r.error && !r.temp ==> r.shown1 == last.1 by { UiManager.SuspendedShowsLatestBar(p, es); }
    assert last.1 == ScreenModel.Bar(n, n) by { LastCallIsLastProgress(p, es); }
    ScreenModel.FullBar(n);
  }

  /** The last progress call among the events. */
  function LastCall(es: seq<UiManager.Event>): (r: Option<UiManager.Event>)
    ensures r.Some? ==> r.value.OtaProgress?
  {
    if es == [] then None
    else if es[|es| - 1].OtaProgress? then Some(es[|es| - 1])
    else LastCall(es[..|es| - 1])
  }

  lemma {:induction false} LastCallIsLastProgress(p: UiManager.Panel, es: seq<UiManager.Event>)
    requires LastCall(es).Some?
    ensures var e := LastCall(es).value;
            UiManager.LastProgress(p, es) == (ScreenModel.Pad(e.name), ScreenModel.Bar(e.current, e.total))
    decreases |es|
  {
    if es != [] && !es[|es| - 1].OtaProgress? { LastCallIsLastProgress(p, es[..|es| - 1]); }
  }

  lemma {:induction false} PercentsGrow(es: seq<ScreenEvent>, i: nat, j: nat)
    requires i <= j <= |es|
    ensures PercentsIn(es[..i]) <= PercentsIn(es[..j])
    decreases j
  {
    if i < j {
      assert es[..j][..j - 1] == es[..j - 1];
      PercentsGrow(es, i, j - 1);
    }
  }

  lemma DownloadFirstPrefix(es: seq<ScreenEvent>, i: nat)
    requires DownloadFirst(es) && i <= |es|
    ensures DownloadFirst(es[..i])
  {
    forall k | 0 <= k < i && es[k].StatusText? ensures PercentsIn(es[..i][..k]) == [] {
      assert es[..i][..k] == es[..k];
    }
  }

  function Latest(got: seq<int>): int { if got == [] then 0 else got[|got| - 1] }

  lemma LatestGrows(early: seq<int>, late: seq<int>, all: seq<int>)
    requires early <= late <= all && NonDecreasing(all) && forall x :: x in all ==> 0 <= x
    ensures Latest(early) <= Latest(late)
  {
    if late != [] { assert Latest(late) == all[|late| - 1] && all[|late| - 1] in all; }
    if early != [] { assert Latest(early) == all[|early| - 1]; }
  }

  /** What the user sees of one update: between any two moments at which the update screen is up, other
      screens in between or not, the percentage it shows has not gone back. */
  lemma DisplayNeverGoesBack(es: seq<ScreenEvent>, i: nat, j: nat)
    requires DownloadFirst(es) && NonDecreasing(PercentsIn(es)) && forall x :: x in PercentsIn(es) ==> 0 <= x
    requires i <= j <= |es| && ScreenAfter(es[..i]).Some? && ScreenAfter(es[..j]).Some?
    ensures ScreenAfter(es[..i]).value <= ScreenAfter(es[..j]).value
  {
    DownloadFirstPrefix(es, i);
    DownloadFirstPrefix(es, j);
    ScreenShowsLatest(es[..i]);
    ScreenShowsLatest(es[..j]);
    PercentsGrow(es, i, j);
    PercentsGrow(es, j, |es|);
    assert es[..|es|] == es;
    LatestGrows(PercentsIn(es[..i]), PercentsIn(es[..j]), PercentsIn(es));
  }

  /** The screen of the app follows these values through the updates it is told of. */
  method ShowReceived(view: ViewModel, es: seq<ScreenEvent>)
    modifies view
    ensures view.UpdateScreen() == ScreenAfter(es)
  {
    view.BeginFirmwareUpdate();
    for i := 0 to |es|
      invariant view.UpdateScreen() == ScreenAfter(es[..i])
    {
      assert es[..i + 1][..i] == es[..i];
      match es[i] {
        case StatusText => view.OnStatusText();
        case Percent(value) => view.OnOtaProgress(value);
        case Replaced => view.OnReplaced();
      }
    }
    assert es[..|es|] == es;
  }
}
