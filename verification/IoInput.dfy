/** io_input.c: the hold-timer automaton, one per button, polled every 50 ms. */
module IoInput {
  import opened Basics
  import opened IoExpander

  const INTERVAL_MS := 50
  const SHORT_MS := 50
  const LONG_MS := 2000
  const FACTORY_MS := 5000

  datatype Action = Short | Long | Factory

  function HoldAfter(hold: int, pressed: bool): int { if pressed then hold + INTERVAL_MS else 0 }

  function ActionAt(hold: int): seq<Action> {
    if hold == SHORT_MS then [Short]
    else if hold == LONG_MS then [Long]
    else if hold == FACTORY_MS then [Factory]
    else []
  }

  /** What one button does with one successful read. */
  function Emits(hold: int, pressed: bool): seq<Action> {
    if pressed then ActionAt(HoldAfter(hold, pressed)) else []
  }

  // ---- one button over a trace of successful reads -----------------------------------------------

  function Hold(presses: seq<bool>): int {
    if presses == [] then 0 else HoldAfter(Hold(presses[..|presses| - 1]), presses[|presses| - 1])
  }

  function Actions(presses: seq<bool>): seq<Action> {
    if presses == [] then []
    else Actions(presses[..|presses| - 1]) + Emits(Hold(presses[..|presses| - 1]), presses[|presses| - 1])
  }

  /** A maximal run of pressed reads: `k` of them from `i`, bounded by releases or the ends of the trace. */
  ghost predicate MaximalRun(presses: seq<bool>, i: nat, k: nat) {
    && i + k <= |presses|
    && (forall j :: i <= j < i + k ==> presses[j])
    && (i > 0 ==> !presses[i - 1])
    && (i + k < |presses| ==> !presses[i + k])
  }

  /** What a hold of `k` polls is worth. */
  function Worth(k: nat): seq<Action> {
    (if k >= 1 then [Short] else []) + (if k >= 40 then [Long] else []) + (if k >= 100 then [Factory] else [])
  }

  lemma Snoc(presses: seq<bool>, pressed: bool)
    ensures Hold(presses + [pressed]) == HoldAfter(Hold(presses), pressed)
    ensures Actions(presses + [pressed]) == Actions(presses) + Emits(Hold(presses), pressed)
  {
    assert (presses + [pressed])[..|presses|] == presses;
  }

  lemma NoWorth(a: seq<Action>)
    ensures a + Worth(0) == a
  {
  }

  lemma WorthGrows(a: seq<Action>, k: nat)
    requires k > 0
    ensures a + Worth(k) == a + Worth(k - 1) + ActionAt(k * INTERVAL_MS)
  {
    assert Worth(k) == Worth(k - 1) + ActionAt(k * INTERVAL_MS);
  }

  lemma {:induction false} HoldInRun(presses: seq<bool>, i: nat, k: nat)
    requires i + k <= |presses| && (forall j :: i <= j < i + k ==> presses[j]) && (i > 0 ==> !presses[i - 1])
    ensures Hold(presses[..i + k]) == k * INTERVAL_MS
    ensures Actions(presses[..i + k]) == Actions(presses[..i]) + Worth(k)
    decreases k
  {
    if k == 0 {
      if i > 0 {
        assert presses[..i] == presses[..i - 1] + [false];
        Snoc(presses[..i - 1], false);
      }
      NoWorth(Actions(presses[..i]));
    } else {
      HoldInRun(presses, i, k - 1);
      assert presses[..i + k] == presses[..i + k - 1] + [true];
      Snoc(presses[..i + k - 1], true);
      WorthGrows(Actions(presses[..i]), k);
    }
  }

  /** Each maximal run of k pressed reads emits exactly SHORT if k >= 1, then LONG if k >= 40, then
      FACTORY if k >= 100, once each, and the release after it emits nothing. */
  lemma RunEmitsItsWorth(presses: seq<bool>, i: nat, k: nat)
    requires MaximalRun(presses, i, k)
    ensures Actions(presses[..i + k]) == Actions(presses[..i]) + Worth(k)
    ensures i + k < |presses| ==> Actions(presses[..i + k + 1]) == Actions(presses[..i]) + Worth(k)
  {
    HoldInRun(presses, i, k);
    if i + k < |presses| {
      assert presses[..i + k + 1] == presses[..i + k] + [false];
      Snoc(presses[..i + k], false);
    }
  }

  /** Lengths of all maximal non-empty runs, in order, read off the trace alone. */
  function Runs(presses: seq<bool>): seq<nat> {
    if presses == [] then []
    else
      var k := TrailingPressed(presses);
      if k == 0 then Runs(presses[..|presses| - 1])
      else Runs(presses[..|presses| - k]) + [k]
  }

  function TrailingPressed(presses: seq<bool>): (k: nat)
    ensures k <= |presses|
    ensures forall j :: |presses| - k <= j < |presses| ==> presses[j]
    ensures k < |presses| ==> !presses[|presses| - k - 1]
  {
    if presses == [] || !presses[|presses| - 1] then 0 else 1 + TrailingPressed(presses[..|presses| - 1])
  }

  function WorthOfAll(runs: seq<nat>): seq<Action> {
    if runs == [] then [] else WorthOfAll(runs[..|runs| - 1]) + Worth(runs[|runs| - 1])
  }

  /** The whole output of a button is the concatenated worth of its maximal runs. */
  lemma {:induction false} ActionsAreRunsWorth(presses: seq<bool>)
    ensures Actions(presses) == WorthOfAll(Runs(presses))
    decreases |presses|
  {
    if presses != [] {
      var k := TrailingPressed(presses);
      var i := |presses| - k;
      if k == 0 {
        ActionsAreRunsWorth(presses[..|presses| - 1]);
        assert Actions(presses) == Actions(presses[..|presses| - 1]) + [];
      } else {
        ActionsAreRunsWorth(presses[..i]);
        assert presses[..i + k] == presses;
        HoldInRun(presses, i, k);
        assert Runs(presses)[..|Runs(presses)| - 1] == Runs(presses[..i]);
      }
    }
  }

  function CountShort(actions: seq<Action>): nat {
    if actions == [] then 0
    else CountShort(actions[..|actions| - 1]) + if actions[|actions| - 1].Short? then 1 else 0
  }

  lemma {:induction false} CountShortConcat(a: seq<Action>, b: seq<Action>)
    ensures CountShort(a + b) == CountShort(a) + CountShort(b)
    decreases |b|
  {
    if b == [] {
      assert a + b == a;
    } else {
      CountShortConcat(a, b[..|b| - 1]);
      assert (a + b)[..|a + b| - 1] == a + b[..|b| - 1];
    }
  }

  /** One SHORT per run: the short clicks of a trace are as many as its runs. */
  lemma {:induction false} ShortClicksCountRuns(presses: seq<bool>)
    ensures CountShort(Actions(presses)) == |Runs(presses)|
  {
    ActionsAreRunsWorth(presses);
    PositiveRuns(presses);
    ShortsOfWorth(Runs(presses));
  }

  lemma {:induction false} ShortsOfWorth(runs: seq<nat>)
    requires forall i :: 0 <= i < |runs| ==> runs[i] > 0
    ensures CountShort(WorthOfAll(runs)) == |runs|
    decreases |runs|
  {
    if runs != [] {
      var k := runs[|runs| - 1];
      ShortsOfWorth(runs[..|runs| - 1]);
      CountShortConcat(WorthOfAll(runs[..|runs| - 1]), Worth(k));
      OneShort(k);
    }
  }

  lemma OneShort(k: nat)
    requires k > 0
    ensures CountShort(Worth(k)) == 1
  {
    CountShortConcat([Short], if k >= 40 then [Long] else []);
    CountShortConcat([Short] + (if k >= 40 then [Long] else []), if k >= 100 then [Factory] else []);
    assert CountShort([Short]) == CountShort([]) + 1;
    assert CountShort([Long]) == CountShort([]) && CountShort([Factory]) == CountShort([]);
  }

  lemma {:induction false} PositiveRuns(presses: seq<bool>)
    ensures forall i :: 0 <= i < |Runs(presses)| ==> Runs(presses)[i] > 0
    decreases |presses|
  {
    if presses != [] {
      var k := TrailingPressed(presses);
      PositiveRuns(presses[..if k == 0 then |presses| - 1 else |presses| - k]);
    }
  }

  // ---- all buttons over a trace of polls ---------------------------------------------------------

  /** One poll of the expander: a failed bus read, or the port byte (a low pin is a pressed button). */
  datatype Poll = Failed | Port(value: bv8)

  /** The successful reads of the button on pin `p`, pressed or not; failed polls are skipped. */
  function ReadsOf(polls: seq<Poll>, p: pin): seq<bool> {
    if polls == [] then []
    else
      var last := polls[|polls| - 1];
      ReadsOf(polls[..|polls| - 1], p) + if last.Port? then [!Bit(last.value, p)] else []
  }

  lemma ReadsSnoc(polls: seq<Poll>, poll: Poll, p: pin)
    ensures ReadsOf(polls + [poll], p) == ReadsOf(polls, p) + if poll.Port? then [!Bit(poll.value, p)] else []
  {
    assert (polls + [poll])[..|polls|] == polls;
  }

  /** A button whose pin nothing pulls low, whatever the other pins do, never acts; a single low read is one
      short click. */
  lemma {:induction false} HighPinIsSilent(polls: seq<Poll>, p: pin)
    requires forall i :: 0 <= i < |polls| && polls[i].Port? ==> Bit(polls[i].value, p)
    ensures Actions(ReadsOf(polls, p)) == [] && Hold(ReadsOf(polls, p)) == 0
    ensures forall port: bv8 :: !Bit(port, p) ==> Actions(ReadsOf(polls + [Port(port)], p)) == [Short]
    decreases |polls|
  {
    if polls != [] {
      var before, poll := polls[..|polls| - 1], polls[|polls| - 1];
      HighPinIsSilent(before, p);
      if poll.Port? { Snoc(ReadsOf(before, p), false); } else { assert ReadsOf(before, p) + [] == ReadsOf(before, p); }
    }
    forall port: bv8 | !Bit(port, p) ensures Actions(ReadsOf(polls + [Port(port)], p)) == [Short] {
      ReadsSnoc(polls, Port(port), p);
      Snoc(ReadsOf(polls, p), true);
    }
  }

  class Input {
    const pins: seq<pin>
    var holdTimers: array<int>
    var emitted: seq<seq<Action>>      // per button, the callback arguments so far
    ghost var polls: seq<Poll>

    constructor (pins: seq<pin>)
      ensures Valid() && this.pins == pins && polls == [] && fresh(holdTimers)
    {
      this.pins := pins;
      holdTimers := new int[|pins|](i => 0);
      emitted := seq(|pins|, i => []);
      polls := [];
    }

    /** Every button is exactly the one-button automaton run on the successful reads of its own pin. */
    ghost predicate Valid()
      reads this, holdTimers
    {
      && |emitted| == holdTimers.Length == |pins|
      && forall b :: 0 <= b < |pins| ==> Tracks(b, ReadsOf(polls, pins[b]))
    }

    ghost predicate Tracks(b: nat, presses: seq<bool>)
      requires b < |emitted| == holdTimers.Length
      reads this, holdTimers
    {
      holdTimers[b] == Hold(presses) && emitted[b] == Actions(presses)
    }

    /** One turn of io_input_task. The int timer must not overflow: no hold of 2^31 ms or more. */
    method PollOnce(poll: Poll)
      requires Valid()
      requires forall b :: 0 <= b < |pins| ==> holdTimers[b] + INTERVAL_MS <= INT_MAX
      modifies this`polls, this`emitted, holdTimers
      ensures Valid() && polls == old(polls) + [poll]
    {
      ghost var was := polls;
      ghost var before := seq(|pins|, b requires 0 <= b < |pins| => ReadsOf(was, pins[b]));
      forall b | 0 <= b < |pins|
        ensures ReadsOf(polls + [poll], pins[b])
             == before[b] + if poll.Port? then [!Bit(poll.value, pins[b])] else []
      {
        ReadsSnoc(polls, poll, pins[b]);
      }
      if poll.Port? {
        ServeAll(poll.value, before);
      } else {
        assert forall b :: 0 <= b < |pins| ==> before[b] + [] == before[b];
      }
      polls := polls + [poll];
    }

    /** The loop over the buttons. */
    method ServeAll(port: bv8, ghost traces: seq<seq<bool>>)
      requires |emitted| == holdTimers.Length == |pins| == |traces|
      requires forall b :: 0 <= b < |pins| ==> Tracks(b, traces[b]) && holdTimers[b] + INTERVAL_MS <= INT_MAX
      modifies this`emitted, holdTimers
      ensures |emitted| == |pins|
      ensures forall b :: 0 <= b < |pins| ==> Tracks(b, traces[b] + [!Bit(port, pins[b])])
    {
      for i := 0 to |pins|
        invariant |emitted| == |pins|
        invariant forall b :: 0 <= b < i ==> Tracks(b, traces[b] + [!Bit(port, pins[b])])
        invariant forall b :: i <= b < |pins| ==> Tracks(b, traces[b]) && holdTimers[b] + INTERVAL_MS <= INT_MAX
      {
        Serve(i, !Bit(port, pins[i]), traces[i]);
      }
    }

    /** One button's share of a poll: its timer, then its callback. */
    method Serve(i: nat, isPressed: bool, ghost presses: seq<bool>)
      requires i < |emitted| == holdTimers.Length && Tracks(i, presses)
      requires holdTimers[i] + INTERVAL_MS <= INT_MAX
      modifies this`emitted, holdTimers
      ensures |emitted| == |old(emitted)| && Tracks(i, presses + [isPressed])
      ensures forall b :: 0 <= b < |emitted| && b != i ==>
                            emitted[b] == old(emitted)[b] && holdTimers[b] == old(holdTimers[b])
    {
      Snoc(presses, isPressed);
      var action := Button(i, isPressed);
      emitted := emitted[i := emitted[i] + action];
    }

    /** The body of the button loop: at most one action per read. */
    method Button(i: nat, isPressed: bool) returns (action: seq<Action>)
      requires i < holdTimers.Length && holdTimers[i] + INTERVAL_MS <= INT_MAX
      modifies holdTimers
      ensures holdTimers[i] == HoldAfter(old(holdTimers[i]), isPressed)
      ensures forall b :: 0 <= b < holdTimers.Length && b != i ==> holdTimers[b] == old(holdTimers[b])
      ensures action == Emits(old(holdTimers[i]), isPressed)
    {
      action := [];
      if isPressed {
        holdTimers[i] := holdTimers[i] + INTERVAL_MS;
        if holdTimers[i] == SHORT_MS { action := [Short]; }
        else if holdTimers[i] == LONG_MS { action := [Long]; }
        else if holdTimers[i] == FACTORY_MS { action := [Factory]; }
      } else {
        holdTimers[i] := 0;
      }
    }
  }
}
