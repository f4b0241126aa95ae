/** The command lock of MainViewModel.kt read off its events alone. */
module LockHistory {
  import opened MainViewModel

  function DurationAt(es: seq<Event>): int {
    if es == [] then 5
    else if es[|es| - 1].SetDuration? then es[|es| - 1].seconds else DurationAt(es[..|es| - 1])
  }

  predicate EnabledAt(es: seq<Event>) {
    if es == [] then true
    else if es[|es| - 1].SetEnabled? then es[|es| - 1].on else EnabledAt(es[..|es| - 1])
  }

  predicate ReconnectingAt(es: seq<Event>) {
    if es == [] then false
    else if es[|es| - 1].SetReconnecting? then es[|es| - 1].on else ReconnectingAt(es[..|es| - 1])
  }

  predicate NoToggleAfter(es: seq<Event>, k: nat) { forall j :: k < j < |es| ==> !es[j].ManualLock? }

  /** A command was accepted at `k` that starts a cooldown: delivered, unlocked, connected, cooldown on. */
  ghost predicate StartsAt(es: seq<Event>, k: nat)
    requires k < |es|
    decreases |es|, 0
  {
    && es[k] == UserCommand(true) && !LockedAt(es[..k]) && !ReconnectingAt(es[..k])
    && EnabledAt(es[..k]) && DurationAt(es[..k]) > 0
  }

  /** The cooldown started at `k` is still running: nobody has toggled the lock, and refreshes are left. */
  ghost predicate CoolsSince(es: seq<Event>, k: nat)
    requires k < |es|
    decreases |es|, 1
  {
    StartsAt(es, k) && NoToggleAfter(es, k) && 30 * CountTicks(es[k + 1..]) < 1000 * DurationAt(es[..k])
  }

  /** The user locked the screen by hand at `k` and has not toggled it since. */
  ghost predicate HandLockedSince(es: seq<Event>, k: nat)
    requires k < |es|
    decreases |es|, 1
  {
    es[k].ManualLock? && !LockedAt(es[..k]) && NoToggleAfter(es, k)
  }

  ghost predicate Cools(es: seq<Event>)
    decreases |es|, 2
  {
    exists k :: 0 <= k < |es| && CoolsSince(es, k)
  }

  ghost predicate HandLocked(es: seq<Event>)
    decreases |es|, 2
  {
    exists k :: 0 <= k < |es| && HandLockedSince(es, k)
  }

  ghost predicate LockedAt(es: seq<Event>)
    decreases |es|, 3
  {
    Cools(es) || HandLocked(es)
  }

  // ---- one more event -----------------------------------------------------------------------------

  lemma TicksSnoc(es: seq<Event>, e: Event, k: nat)
    requires k < |es|
    ensures CountTicks((es + [e])[k + 1..]) == CountTicks(es[k + 1..]) + if e.RefreshTick? then 1 else 0
  {
    var tail := (es + [e])[k + 1..];
    assert tail[..|tail| - 1] == es[k + 1..] && tail[|tail| - 1] == e;
  }

  /** What a cooldown started at `k` has left, in milliseconds. */
  function Left(es: seq<Event>, k: nat): (left: Job)
    requires k < |es|
    ensures left.Counting?
  {
    Counting(1000 * DurationAt(es[..k]) - 30 * CountTicks(es[k + 1..]), 1000 * DurationAt(es[..k]))
  }

  lemma CoolsSinceSnoc(es: seq<Event>, e: Event, k: nat)
    requires k < |es|
    ensures Left(es + [e], k).total == Left(es, k).total
    ensures Left(es + [e], k).remaining == Left(es, k).remaining - if e.RefreshTick? then 30 else 0
    ensures CoolsSince(es + [e], k) <==> CoolsSince(es, k) && !e.ManualLock? && Left(es + [e], k).remaining > 0
  {
    var all := es + [e];
    assert all[..k] == es[..k] && all[k] == es[k];
    TicksSnoc(es, e, k);
    assert NoToggleAfter(all, k) <==> NoToggleAfter(es, k) && !e.ManualLock? by {
      assert all[|es|] == e;
      assert forall j :: 0 <= j < |es| ==> all[j] == es[j];
    }
  }

  lemma HandLockedSnoc(es: seq<Event>, e: Event)
    ensures HandLocked(es + [e]) <==> (HandLocked(es) && !e.ManualLock?) || (e.ManualLock? && !LockedAt(es))
  {
    var all := es + [e];
    assert all[..|es|] == es && all[|es|] == e;
    assert HandLockedSince(all, |es|) <==> e.ManualLock? && !LockedAt(es);
    forall k | 0 <= k < |es|
      ensures HandLockedSince(all, k) <==> HandLockedSince(es, k) && !e.ManualLock?
    {
      assert all[..k] == es[..k] && all[k] == es[k];
      assert forall j :: 0 <= j < |es| ==> all[j] == es[j];
    }
  }

  lemma StartsSnoc(es: seq<Event>, e: Event)
    ensures CoolsSince(es + [e], |es|)
       <==> e == UserCommand(true) && !LockedAt(es) && !ReconnectingAt(es) && EnabledAt(es) && DurationAt(es) > 0
  {
    var all := es + [e];
    assert all[..|es|] == es && all[|es|] == e && all[|es| + 1..] == [];
  }

  // ---- the theorem --------------------------------------------------------------------------------

  /** The lock with what the settings were last set to, locked exactly by a cooldown or by hand, and with the
      bar at the share of the cooldown that is left. */
  ghost predicate Follows(l: Lock, es: seq<Event>) {
    && l.durationSec == DurationAt(es) && l.enabled == EnabledAt(es) && l.reconnecting == ReconnectingAt(es)
    && (l.locked <==> LockedAt(es)) && !(Cools(es) && HandLocked(es))
    && (l.job.Counting? <==> Cools(es))
    && (forall k :: 0 <= k < |es| && CoolsSince(es, k) ==> l.job == Left(es, k))
    && (l.job.Counting? ==> 0 < l.job.remaining <= l.job.total)
    && l.progress == if l.job.NoJob? then 0.0 else l.job.remaining as real / l.job.total as real
  }

  lemma SettingsStep(l: Lock, es: seq<Event>, e: Event)
    requires Follows(l, es)
    ensures var r := Step(l, e);
            && r.durationSec == DurationAt(es + [e]) && r.enabled == EnabledAt(es + [e])
            && r.reconnecting == ReconnectingAt(es + [e])
  {
    assert (es + [e])[..|es|] == es;
  }

  lemma RunningCooldown(es: seq<Event>) returns (k: nat)
    requires Cools(es)
    ensures k < |es| && CoolsSince(es, k)
  {
    k :| 0 <= k < |es| && CoolsSince(es, k);
  }

  /** Which cooldowns one more event leaves running. */
  lemma CoolsSnoc(l: Lock, es: seq<Event>, e: Event)
    requires Follows(l, es)
    ensures var all, r := es + [e], Step(l, e);
            && (r.job.Counting? <==> Cools(all))
            && (forall k :: 0 <= k < |all| && CoolsSince(all, k) ==> r.job == Left(all, k))
  {
    var all, r := es + [e], Step(l, e);
    StartsSnoc(es, e);
    assert all[|es| + 1..] == [] && all[..|es|] == es;
    assert Left(all, |es|) == Counting(1000 * DurationAt(es), 1000 * DurationAt(es));
    forall k | 0 <= k < |es|
      ensures CoolsSince(all, k) <==> CoolsSince(es, k) && !e.ManualLock? && r.job.Counting?
      ensures CoolsSince(all, k) ==> r.job == Left(all, k)
    {
      CoolsSinceSnoc(es, e, k);
      assert CoolsSince(es, k) ==> l.job == Left(es, k);
    }
    if Cools(all) {
      var k := RunningCooldown(all);
      assert r.job == Left(all, k);
    }
    if r.job.Counting? {
      var k: nat := |es|;
      if Cools(es) { k := RunningCooldown(es); }
      assert CoolsSince(all, k);
    }
  }

  lemma FollowsStep(l: Lock, es: seq<Event>, e: Event)
    requires Follows(l, es)
    ensures Follows(Step(l, e), es + [e])
  {
    SettingsStep(l, es, e);
    CoolsSnoc(l, es, e);
    HandLockedSnoc(es, e);
  }

  /** In every run of commands, refreshes, toggles and settings from the start of the app: the screen is locked
      iff a cooldown with refreshes left or a toggle by hand locks it, the bar is the share of that cooldown
      still left, and with the cooldown switched off no command locks. */
  lemma {:induction false} LockFollowsEvents(es: seq<Event>)
    ensures Follows(Run(Lock(false, 0.0, NoJob, true, 5, false), es), es)
    decreases |es|
  {
    if es != [] {
      var before, e := es[..|es| - 1], es[|es| - 1];
      LockFollowsEvents(before);
      FollowsStep(Run(Lock(false, 0.0, NoJob, true, 5, false), before), before, e);
      assert es == before + [e];
    }
  }
}
