/** app_api_ota_update.c: the transfer loop and all of its exits. The request, the flash partition and
    the calls into the UI manager, the screen and the event queue are the fields of one session. */
module OtaUpdate {
  import opened Basics

  const PARTITION_SIZE := 0x1E_0000      // app0 and app1 in partitions.csv
  const BUFFER_SIZE := 1024

  /** A size_t stored in an int. */
  function ToInt(n: int): int
    requires 0 <= n < 0x1_0000_0000
  {
    if n <= INT_MAX then n else n - 0x1_0000_0000
  }

  datatype ContentType = Missing | OctetStream | Other

  datatype Received = Timeout | Failure | Bytes(data: seq<byte>)

  datatype Exit =
    | Success | UnsupportedType | NoPartition | BeginFailed | ReceiveFailed | WriteFailed | EndFailed | SwitchFailed

  /** One ui_show_boot_progress call. */
  datatype Bar = Bar(title: string, current: int, total: int)

  /** Strictly increasing even percentages. */
  ghost predicate Climbing(events: seq<int>) {
    && (forall i :: 0 <= i < |events| ==> 0 <= events[i] <= 100 && events[i] % 2 == 0)
    && (forall i, j :: 0 <= i < j < |events| ==> events[i] < events[j])
  }

  /** The percentages of one update: climbing, and on success reaching 100 with one more 100 after it. */
  ghost predicate ProgressTrace(events: seq<int>, success: bool) {
    if success then
      |events| >= 2 && events[|events| - 1] == 100 && events[|events| - 2] == 100 && Climbing(events[..|events| - 1])
    else Climbing(events)
  }

  // ---- what the reports must be, from the sizes the image had after each write ----------------------

  /** The percentage before and after block `i`; before the first there is none. */
  function PercentOf(marks: seq<int>, total: int, i: int): int
    requires total > 0 && -1 <= i < |marks|
  {
    if i < 0 then -1 else 100 * marks[i] / total
  }

  /** Block `i` raised the whole percentage, to a multiple of `step`. */
  predicate Raises(marks: seq<int>, total: int, i: int, step: int)
    requires total > 0 && 0 <= i < |marks| && step > 0
  {
    PercentOf(marks, total, i) > PercentOf(marks, total, i - 1) && PercentOf(marks, total, i) % step == 0
  }

  /** An event for every new even percentage. */
  function EventsFor(marks: seq<int>, total: int, n: nat): seq<int>
    requires total > 0 && n <= |marks|
  {
    if n == 0 then []
    else
      EventsFor(marks, total, n - 1)
      + if Raises(marks, total, n - 1, 2) then [PercentOf(marks, total, n - 1)] else []
  }

  /** A bar for every new percentage divisible by five. */
  function BarsFor(marks: seq<int>, total: int, n: nat): seq<Bar>
    requires total > 0 && n <= |marks|
  {
    if n == 0 then []
    else
      BarsFor(marks, total, n - 1)
      + if Raises(marks, total, n - 1, 5) then [Bar("Firmware update", marks[n - 1], total)] else []
  }

  lemma {:induction false} ReportsOfPrefix(marks: seq<int>, m: int, total: int, n: nat)
    requires total > 0 && n <= |marks|
    ensures EventsFor(marks + [m], total, n) == EventsFor(marks, total, n)
    ensures BarsFor(marks + [m], total, n) == BarsFor(marks, total, n)
  {
    if n > 0 { ReportsOfPrefix(marks, m, total, n - 1); }
  }

  predicate MarksRise(marks: seq<int>, total: int) {
    && (forall i :: 0 <= i < |marks| ==> 0 < marks[i] <= total)
    && (forall i, j :: 0 <= i < j < |marks| ==> marks[i] < marks[j])
  }

  lemma ClimbStep(e: seq<int>, last: int, p: int)
    requires Climbing(e) && (e != [] ==> e[|e| - 1] <= last) && last <= p && 0 <= p <= 100
    ensures var r := e + if p > last && p % 2 == 0 then [p] else [];
            && Climbing(r) && (r != [] ==> r[|r| - 1] <= p)
            && (p == 100 > last ==> r != [] && r[|r| - 1] == 100)
  {
  }

  lemma PercentsRise(marks: seq<int>, total: int, n: nat)
    requires total > 0 && n < |marks| && MarksRise(marks, total)
    ensures PercentOf(marks, total, n - 1) <= PercentOf(marks, total, n) && 0 <= PercentOf(marks, total, n) <= 100
    ensures marks[n] == total ==> PercentOf(marks, total, n) == 100 > PercentOf(marks, total, n - 1)
  {
    PercentBounds(marks[n], total);
    if n > 0 {
      PercentBounds(marks[n - 1], total);
      DivLe(100 * marks[n - 1], 100 * marks[n], total);
    }
  }

  /** Whatever the sizes of the blocks, the events climb, and reach 100 with the last byte. */
  lemma {:induction false} EventsClimb(marks: seq<int>, total: int, n: nat)
    requires total > 0 && n <= |marks| && MarksRise(marks, total)
    ensures var e := EventsFor(marks, total, n);
            && Climbing(e) && (e != [] ==> e[|e| - 1] <= PercentOf(marks, total, n - 1))
            && (n > 0 && marks[n - 1] == total ==> e != [] && e[|e| - 1] == 100)
  {
    if n > 0 {
      EventsClimb(marks, total, n - 1);
      PercentsRise(marks, total, n - 1);
      ClimbStep(EventsFor(marks, total, n - 1), PercentOf(marks, total, n - 2), PercentOf(marks, total, n - 1));
    }
  }

  lemma ReportsAreTrace(marks: seq<int>, total: int, success: bool)
    requires total > 0 && MarksRise(marks, total) && (success ==> marks != [] && marks[|marks| - 1] == total)
    ensures ProgressTrace(EventsFor(marks, total, |marks|) + (if success then [100] else []), success)
  {
    var e := EventsFor(marks, total, |marks|);
    EventsClimb(marks, total, |marks|);
    if success { assert (e + [100])[..|e|] == e; } else { assert e + [] == e; }
  }

  lemma {:induction false} BarsInRange(marks: seq<int>, total: int, n: nat)
    requires total > 0 && n <= |marks| && MarksRise(marks, total)
    ensures forall i :: 0 <= i < |BarsFor(marks, total, n)| ==> BarsFor(marks, total, n)[i].current in marks
  {
    if n > 0 { BarsInRange(marks, total, n - 1); }
  }

  class Session {
    // request
    const body: seq<byte>
    var consumed: nat             // body bytes already received
    var patience: nat             // receive timeouts still to come
    // update partition and boot selection
    var written: seq<byte>
    var began: bool
    var endCalls: nat
    var ended: bool               // esp_ota_end succeeded
    var switched: bool            // the boot partition was changed
    // ui_manager, screen and queue
    var suspended: bool
    var resumes: nat
    var bars: seq<Bar>
    var events: seq<int>
    // what the calls out of the handler have answered
    ghost var receives: seq<Received>
    ghost var writes: seq<bool>
    ghost var marks: seq<int>     // size of the image after each write that succeeded
    ghost var ends: seq<bool>
    ghost var switches: seq<bool>

    constructor (body: seq<byte>, patience: nat)
      ensures this.body == body && this.patience == patience && Untouched()
    {
      this.body, this.patience := body, patience;
      consumed, written, began, endCalls, ended, switched := 0, [], false, 0, false, false;
      suspended, resumes, bars, events := false, 0, [], [];
      receives, writes, marks, ends, switches := [], [], [], [], [];
    }

    ghost predicate Untouched()
      reads this
    {
      && consumed == 0 && written == [] && !began && endCalls == 0 && !ended && !switched
      && resumes == 0 && bars == [] && events == []
      && receives == [] && writes == [] && marks == [] && ends == [] && switches == []
    }

    /** httpd_req_recv: a timeout, an error or closed connection, or at most `max` further bytes. */
    method Receive(max: nat) returns (r: Received)
      requires 0 < max && consumed + max <= |body|
      modifies this`consumed, this`patience, this`receives
      ensures receives == old(receives) + [r]
      ensures r.Timeout? ==> patience < old(patience) && consumed == old(consumed)
      ensures r.Failure? ==> patience == old(patience) && consumed == old(consumed)
      ensures r.Bytes? ==> 0 < |r.data| <= max && consumed == old(consumed) + |r.data| && patience == old(patience)
                           && r.data == body[old(consumed)..consumed]
    {
      var timedOut: bool := *;
      if timedOut && patience > 0 {
        patience := patience - 1;
        receives := receives + [Timeout];
        return Timeout;
      }
      var failed: bool := *;
      if failed {
        receives := receives + [Failure];
        return Failure;
      }
      var n: nat :| 0 < n <= max;
      r := Bytes(body[consumed..consumed + n]);
      consumed := consumed + n;
      receives := receives + [r];
    }

    /** esp_ota_write: may fail at any time, and must past the end of the partition. */
    method FlashWrite(data: seq<byte>) returns (ok: bool)
      modifies this`written, this`writes, this`marks
      ensures writes == old(writes) + [ok] && marks == if ok then old(marks) + [|written|] else old(marks)
      ensures written == if ok then old(written) + data else old(written)
      ensures ok ==> |written| <= PARTITION_SIZE
    {
      ok := *;
      if |written| + |data| > PARTITION_SIZE { ok := false; }
      writes := writes + [ok];
      if ok {
        written := written + data;
        marks := marks + [|written|];
      }
    }

    /** esp_ota_end: releases the handle; fails for a bad image and for a handle never written to. */
    method FlashEnd() returns (ok: bool)
      modifies this`endCalls, this`ended, this`ends
      ensures ends == old(ends) + [ok]
      ensures endCalls == old(endCalls) + 1 && (ended <==> old(ended) || ok) && (ok ==> written != [])
    {
      endCalls := endCalls + 1;
      ok := *;
      if written == [] { ok := false; }
      ends := ends + [ok];
      if ok { ended := true; }
    }

    method SetBootPartition() returns (ok: bool)
      modifies this`switched, this`switches
      ensures switches == old(switches) + [ok]
      ensures switched <==> old(switched) || ok
    {
      ok := *;
      switches := switches + [ok];
      if ok { switched := true; }
    }

    method SuspendUi()
      modifies this`suspended
      ensures suspended
    {
      suspended := true;
    }

    method ResumeUi()
      modifies this`suspended, this`resumes
      ensures !suspended && resumes == old(resumes) + 1
    {
      suspended := false;
      resumes := resumes + 1;
    }

    method ShowProgress(title: string, current: int, total: int)
      modifies this`bars
      ensures bars == old(bars) + [Bar(title, current, total)]
    {
      bars := bars + [Bar(title, current, total)];
    }

    /** send_ota_progress_event. */
    method SendProgressEvent(current: int, total: int)
      requires 0 <= current && current * 100 <= INT_MAX
      modifies this`events
      ensures events == old(events) + [if total > 0 then 100 * current / total else 0]
    {
      var pct := if total > 0 then current * 100 / total else 0;
      events := events + [pct];
    }

    /** The reports so far are those of the blocks written so far, after the first bar. */
    ghost predicate Reported(total: int)
      reads this
    {
      total > 0 ==>
        && events == EventsFor(marks, total, |marks|)
        && bars == [Bar("Firmware update", 0, total)] + BarsFor(marks, total, |marks|)
    }

    /** What one turn of the loop leaves, `current` bytes into a body of `total`. */
    ghost predicate Transferring(current: int, total: int, last: int)
      reads this
    {
      && 0 <= current <= total == |body| && current == consumed == |written| <= PARTITION_SIZE
      && written == body[..current]
      && (if marks == [] then current == 0 else current == marks[|marks| - 1])
      && MarksRise(marks, total)
      && (if total == 0 then last == -1 && bars == [Bar("Firmware update", 0, 0)] && events == []
          else last == PercentOf(marks, total, |marks| - 1) && Reported(total))
    }

    /** Everything the receive and write calls have answered so far was harmless, timeouts included. */
    ghost predicate NoFailure()
      reads this
    {
      Failure !in receives && false !in writes
    }

    /** The progress report after a written block; nothing in it can overflow an int. */
    method Report(current: int, total: int, last: int) returns (newLast: int)
      requires 0 < current <= total == |body| && current == consumed == |written| <= PARTITION_SIZE
      requires written == body[..current] && marks != [] && marks[|marks| - 1] == current
      requires last == PercentOf(marks, total, |marks| - 2)
      requires MarksRise(marks, total)
      requires events == EventsFor(marks, total, |marks| - 1)
      requires bars == [Bar("Firmware update", 0, total)] + BarsFor(marks, total, |marks| - 1)
      modifies this`events, this`bars
      ensures Transferring(current, total, newLast)
    {
      assert current * 100 <= INT_MAX;
      ghost var n := |marks|;
      assert last <= 100 * current / total by {
        if n > 1 { DivLe(100 * marks[n - 2], 100 * current, total); }
      }
      newLast := last;
      var currentPercent := current * 100 / total;
      if currentPercent > last {
        newLast := currentPercent;
        if currentPercent % 2 == 0 { SendProgressEvent(current, total); }
        if currentPercent % 5 == 0 { ShowProgress("Firmware update", current, total); }
      }
    }

    /** A received block is written and, if that went well, reported. */
    method WriteBlock(data: seq<byte>, current: nat, last: int) returns (ok: bool, newLast: int)
      requires data != [] && consumed == current + |data| <= |body| && data == body[current..consumed]
      requires current == |written| <= PARTITION_SIZE && written == body[..current]
      requires if marks == [] then current == 0 else current == marks[|marks| - 1]
      requires MarksRise(marks, |body|) && last == PercentOf(marks, |body|, |marks| - 1) && Reported(|body|)
      modifies this`written, this`events, this`bars, this`writes, this`marks
      ensures writes == old(writes) + [ok]
      ensures ok ==> Transferring(consumed, |body|, newLast)
      ensures !ok ==> written == old(written) && events == old(events) && bars == old(bars) && marks == old(marks)
    {
      newLast := last;
      ghost var blocks := marks;
      ok := FlashWrite(data);
      if !ok { return; }
      assert body[..consumed] == body[..current] + data;
      ReportsOfPrefix(blocks, |written|, |body|, |blocks|);
      newLast := Report(consumed, |body|, last);
    }

    /** One turn of the loop with `remaining` bytes to go; `last` becomes the percentage reported last. */
    method Turn(remaining: nat, current: nat, last: int) returns (r: Received, ok: bool, newLast: int)
      requires remaining > 0 && remaining + current == |body| && Transferring(current, |body|, last)
      modifies this`consumed, this`patience, this`written, this`events, this`bars
      modifies this`receives, this`writes, this`marks
      ensures receives == old(receives) + [r]
      ensures writes == old(writes) + if r.Bytes? then [ok] else []
      ensures r.Timeout? ==> patience < old(patience)
      ensures r.Bytes? ==> 0 < |r.data| <= remaining && |r.data| <= 1024
      ensures r.Bytes? && ok ==> Transferring(current + |r.data|, |body|, newLast)
      ensures !(r.Bytes? && ok) ==>
                written == old(written) && events == old(events) && bars == old(bars) && marks == old(marks)
      ensures r.Timeout? ==> consumed == old(consumed) && newLast == last
    {
      newLast, ok := last, false;
      r := Receive(if remaining < BUFFER_SIZE then remaining else BUFFER_SIZE);
      if r.Bytes? { ok, newLast := WriteBlock(r.data, current, last); }
    }

    /** What the transfer leaves. A body of no or too many bytes for an int never enters the loop. */
    ghost predicate Transferred(outcome: Exit)
      requires |body| < 0x1_0000_0000
      reads this
    {
      && outcome in {Success, ReceiveFailed, WriteFailed}
      && (outcome == ReceiveFailed <==> Failure in receives)
      && (outcome == WriteFailed <==> false in writes)
      && written <= body && |written| <= PARTITION_SIZE
      && (forall i :: 0 <= i < |marks| ==> marks[i] <= |written|)
      && (forall d :: Bytes(d) in receives ==> |d| <= 1024)
      && (if 0 < |body| <= INT_MAX then
            && MarksRise(marks, |body|) && Reported(|body|)
            && (outcome == Success ==> written == body && marks != [] && marks[|marks| - 1] == |body|)
          else
            outcome == Success && written == [] && events == []
            && bars == [Bar("Firmware update", 0, ToInt(|body|))])
    }

    /** The receive-and-write loop. It ends because every turn takes a byte or one of finitely many timeouts. */
    method Transfer(total: int) returns (outcome: Exit)
      requires total == |body| <= INT_MAX && Transferring(0, total, -1) && NoFailure()
      requires forall d :: Bytes(d) in receives ==> |d| <= 1024
      modifies this`consumed, this`patience, this`written, this`events, this`bars
      modifies this`receives, this`writes, this`marks
      ensures Transferred(outcome)
    {
      var remaining, currentLen, lastPercent := total, 0, -1;
      while remaining > 0
        invariant remaining >= 0 && remaining + currentLen == total
        invariant Transferring(currentLen, total, lastPercent) && NoFailure()
        invariant forall d :: Bytes(d) in receives ==> |d| <= 1024
        decreases remaining, patience
      {
        var r, ok, newLast := Turn(remaining, currentLen, lastPercent);
        if r.Timeout? { continue; }
        if r.Failure? { return ReceiveFailed; }
        if !ok { return WriteFailed; }
        remaining := remaining - |r.data|;
        currentLen := currentLen + |r.data|;
        lastPercent := newLast;
      }
      outcome := Success;
    }

    /** The end of the transfer: close the image, select it, announce it. */
    method Activate(totalLen: int) returns (exit: Exit)
      requires resumes == 0 && suspended && endCalls == 0 && !ended && !switched && ends == [] && switches == []
      requires written != [] ==> 0 < totalLen <= PARTITION_SIZE
      modifies this`endCalls, this`ended, this`switched, this`suspended, this`resumes, this`bars, this`events
      modifies this`ends, this`switches
      ensures exit in {Success, EndFailed, SwitchFailed} && endCalls == 1
      ensures ends == [exit != EndFailed] && switches == if exit == EndFailed then [] else [exit == Success]
      ensures exit == Success <==> switched
      ensures switched ==> ended && written != []
      ensures written == [] ==> exit == EndFailed
      ensures if exit == Success then suspended && resumes == 0 else !suspended && resumes == 1
      ensures bars == old(bars) + if exit == Success then [Bar("Complete", totalLen, totalLen)] else []
      ensures events == old(events) + if exit == Success then [100] else []
    {
      var ok := FlashEnd();
      if !ok {
        ResumeUi();
        return EndFailed;
      }
      ok := SetBootPartition();
      if !ok {
        ResumeUi();
        return SwitchFailed;
      }
      ShowProgress("Complete", totalLen, totalLen);
      SendProgressEvent(totalLen, totalLen);
      exit := Success;
    }

    /** The first answer that was a failure, in the order the handler asks; a timeout is none. */
    ghost function Answered(): Exit
      reads this
    {
      if Failure in receives then ReceiveFailed
      else if false in writes then WriteFailed
      else if false in ends then EndFailed
      else if false in switches then SwitchFailed
      else Success
    }

    /** What was announced: a first bar, then an event for every new even percentage and a bar for every new
        multiple of five, and on success a last bar and a last 100. A body of no or too many bytes for an int
        gets the first bar only. */
    ghost predicate Announced(exit: Exit)
      requires |body| < 0x1_0000_0000
      reads this
    {
      if 0 < |body| <= INT_MAX then
        && MarksRise(marks, |body|)
        && events == EventsFor(marks, |body|, |marks|) + (if exit == Success then [100] else [])
        && bars == [Bar("Firmware update", 0, |body|)] + BarsFor(marks, |body|, |marks|)
                   + (if exit == Success then [Bar("Complete", |body|, |body|)] else [])
      else exit == EndFailed && events == [] && bars == [Bar("Firmware update", 0, ToInt(|body|))]
    }

    /** What every exit behind esp_ota_begin leaves. */
    ghost predicate Finished(exit: Exit)
      requires |body| < 0x1_0000_0000
      reads this
    {
      && exit == Answered() && Announced(exit)
      && written <= body && |written| <= 0x1E_0000
      && (forall i :: 0 <= i < |marks| ==> marks[i] <= |written|)
      && (forall d :: Bytes(d) in receives ==> |d| <= 1024)
      && endCalls == |ends| == 1
      && (exit == Success <==> switched)
      && (exit == Success ==> written == body && ended && marks != [] && marks[|marks| - 1] == |body|)
      && (if exit == Success then suspended && resumes == 0 else !suspended && resumes == 1)
    }

    lemma FinishedTrace(exit: Exit)
      requires |body| < 0x1_0000_0000 && Finished(exit)
      ensures ProgressTrace(events, exit == Success)
      ensures forall i :: 0 <= i < |bars| ==> 0 <= bars[i].current <= 0x1E_0000
    {
      if 0 < |body| <= INT_MAX {
        ReportsAreTrace(marks, |body|, exit == Success);
        BarsInRange(marks, |body|, |marks|);
      }
    }

    /** A broken transfer: the handle is closed, whatever that answers, and the panel resumed. */
    method Abandon(outcome: Exit)
      requires suspended && resumes == 0 && endCalls == 0 && !ended && !switched && ends == [] && switches == []
      requires |body| < 0x1_0000_0000 && Transferred(outcome) && outcome != Success
      modifies this`endCalls, this`ended, this`suspended, this`resumes, this`ends
      ensures Finished(outcome)
    {
      if outcome == ReceiveFailed {
        ResumeUi();
        var ignored := FlashEnd();
      } else {
        var ignored := FlashEnd();
        ResumeUi();
      }
    }

    method Conclude(outcome: Exit, totalLen: int) returns (exit: Exit)
      requires suspended && resumes == 0 && endCalls == 0 && !ended && !switched && ends == [] && switches == []
      requires |body| < 0x1_0000_0000 && totalLen == ToInt(|body|) && Transferred(outcome)
      modifies this`endCalls, this`ended, this`switched, this`suspended, this`resumes, this`bars, this`events
      modifies this`ends, this`switches
      ensures Finished(exit)
    {
      if outcome != Success {
        Abandon(outcome);
        return outcome;
      }
      exit := Activate(totalLen);
      assert Announced(exit);
    }

    /** Everything after the image was opened. */
    method Install(totalLen: int) returns (exit: Exit)
      requires suspended && resumes == 0 && endCalls == 0 && !ended && !switched && ends == [] && switches == []
      requires |body| < 0x1_0000_0000 && totalLen == ToInt(|body|) && consumed == 0 && written == [] && marks == []
      requires receives == [] && writes == [] && events == [] && bars == [Bar("Firmware update", 0, totalLen)]
      modifies this
      ensures began == old(began) && Finished(exit)
    {
      var outcome := Success;
      if totalLen >= 0 { outcome := Transfer(totalLen); }   // a negative length never enters the loop
      exit := Conclude(outcome, totalLen);
    }

    /** The whole handler. Behind the first three exits the outcome is the first failure answered. */
    method Handle(contentType: ContentType, partitionFound: bool, beginOk: bool) returns (exit: Exit)
      requires Untouched() && |body| < 0x1_0000_0000
      modifies this
      ensures exit == UnsupportedType <==> contentType == Other
      ensures exit == NoPartition <==> contentType != Other && !partitionFound
      ensures exit == BeginFailed <==> contentType != Other && partitionFound && !beginOk
      ensures began <==> contentType != Other && partitionFound && beginOk
      ensures !began ==> written == [] && !switched && events == [] && bars == [] && receives == [] && endCalls == 0
                         && !suspended && resumes == 1
      ensures began ==> Finished(exit)
      ensures exit == Success <==> switched
      ensures ProgressTrace(events, exit == Success)
      ensures forall i :: 0 <= i < |bars| ==> 0 <= bars[i].current <= 0x1E_0000
    {
      SuspendUi();
      if contentType == Other {
        ResumeUi();
        return UnsupportedType;
      }
      var totalLen := ToInt(|body|);
      if !partitionFound {
        ResumeUi();
        return NoPartition;
      }
      if !beginOk {
        ResumeUi();
        return BeginFailed;
      }
      began := true;
      ShowProgress("Firmware update", 0, totalLen);
      exit := Install(totalLen);
      FinishedTrace(exit);
    }
  }

  lemma PercentBounds(current: int, total: int)
    requires 0 < current <= total
    ensures 0 <= current * 100 / total <= 100
    ensures current < total ==> current * 100 / total < 100
    ensures current == total ==> current * 100 / total == 100
  {
    var q := current * 100 / total;
    assert total * q <= current * 100 < total * q + total;
    if q > 100 { MulLe(101, q, total); }
    if q >= 100 { MulLe(100, q, total); }
    if q < 100 && current == total { MulLe(q, 99, total); }
  }

  /** At most 51 percentages climb. */
  lemma {:induction false} ClimbingIsShort(events: seq<int>)
    requires Climbing(events)
    ensures |events| <= 51
    ensures forall i :: 0 <= i < |events| ==> events[i] >= 2 * i
  {
    if events != [] {
      var init := events[..|events| - 1];
      ClimbingIsShort(init);
      if init != [] {
        assert events[|events| - 2] == init[|init| - 1] >= 2 * (|init| - 1);
        assert events[|events| - 2] < events[|events| - 1];
      }
    }
  }

  ghost predicate NonDecreasing(events: seq<int>) {
    forall i, j :: 0 <= i < j < |events| ==> events[i] <= events[j]
  }

  /** One update emits at most 52 percentages and they never go back. */
  lemma TraceNeverGoesBack(events: seq<int>, success: bool)
    requires ProgressTrace(events, success)
    ensures NonDecreasing(events) && |events| <= 52
  {
    if success {
      var init := events[..|events| - 1];
      ClimbingIsShort(init);
      assert events == init + [100];
    } else {
      ClimbingIsShort(events);
    }
  }
}
