/** WsClient.kt: one connection session, from establishConnection to the close of its flow. Events are
    those passed to trySend while the flow is open; the buffer between sender and collector is assumed
    not to overflow. */
module WsClient {

  const MAX_RECONNECT_ATTEMPTS := 2

  datatype NetworkEvent = Connected | MessageReceived | Reconnecting | Error | Disconnected

  /** What the socket library and the connection set-up can report. */
  datatype Callback = OnOpen | OnMessage | OnFailure(io: bool) | OnClosing | SetupException

  datatype Session = Session(attempt: nat, closed: bool, events: seq<NetworkEvent>)

  predicate Terminal(e: NetworkEvent) { e.Error? || e.Disconnected? }

  /** trySend on a closed flow delivers nothing. */
  function Deliver(s: Session, e: NetworkEvent): Session {
    if s.closed then s else s.(events := s.events + [e])
  }

  function React(s: Session, c: Callback): Session {
    match c
    case OnOpen => Deliver(s.(attempt := 0), Connected)
    case OnMessage => Deliver(s, MessageReceived)
    case OnFailure(io) =>
      if io && s.attempt < MAX_RECONNECT_ATTEMPTS then Deliver(s.(attempt := s.attempt + 1), Reconnecting)
      else Deliver(s, Error).(closed := true)
    case OnClosing => Deliver(s, Disconnected).(closed := true)
    case SetupException => Deliver(s, Error).(closed := true)
  }

  function Start(): Session { Session(0, false, []) }

  function Run(s: Session, cs: seq<Callback>): Session {
    if cs == [] then s else React(Run(s, cs[..|cs| - 1]), cs[|cs| - 1])
  }

  class Client {
    var attempt: nat
    var closed: bool
    var connected: bool              // webSocket != null
    var retryPending: bool
    ghost var events: seq<NetworkEvent>

    constructor ()
      ensures View() == Start() && connected && !retryPending
    {
      attempt, closed, connected, retryPending, events := 0, false, true, false, [];
    }

    ghost function View(): Session
      reads this
    {
      Session(attempt, closed, events)
    }

    method TrySend(e: NetworkEvent)
      modifies this`events
      ensures View() == Deliver(old(View()), e)
    {
      if !closed { events := events + [e]; }
    }

    method Close()
      modifies this`closed, this`connected, this`retryPending
      ensures closed && !connected && !retryPending
    {
      closed, connected, retryPending := true, false, false;
    }

    method OnOpen()
      modifies this
      ensures View() == React(old(View()), Callback.OnOpen) && connected
    {
      connected := true;
      attempt := 0;
      TrySend(Connected);
    }

    method OnMessage()
      modifies this
      ensures View() == React(old(View()), Callback.OnMessage) && connected == old(connected)
    {
      TrySend(MessageReceived);
    }

    /** An I/O failure with attempts left schedules a new connection; any other failure ends the flow. */
    method OnFailure(io: bool)
      modifies this
      ensures View() == React(old(View()), Callback.OnFailure(io)) && !connected
      ensures retryPending <==> !closed && (io && old(attempt) < MAX_RECONNECT_ATTEMPTS)
    {
      connected := false;
      if io && attempt < MAX_RECONNECT_ATTEMPTS {
        attempt := attempt + 1;
        TrySend(Reconnecting);
        retryPending := !closed;         // launching in a closed scope does nothing
      } else {
        TrySend(Error);
        Close();
      }
    }

    method OnClosing()
      modifies this
      ensures View() == React(old(View()), Callback.OnClosing) && closed && !connected
    {
      TrySend(Disconnected);
      Close();
    }

    method SetupFailed()
      modifies this
      ensures View() == React(old(View()), SetupException) && closed && !connected
    {
      TrySend(Error);
      Close();
    }
  }

  // ---- what every session delivers ------------------------------------------------------------------

  /** Reconnecting events since the last Connected, counted in the delivered events alone. */
  function SinceConnected(events: seq<NetworkEvent>): nat {
    if events == [] || events[|events| - 1].Connected? then 0
    else SinceConnected(events[..|events| - 1]) + if events[|events| - 1].Reconnecting? then 1 else 0
  }

  ghost predicate Delivered(s: Session) {
    && (!s.closed ==> s.attempt == SinceConnected(s.events) && forall e :: e in s.events ==> !Terminal(e))
    && s.attempt <= MAX_RECONNECT_ATTEMPTS
    && (s.closed ==> s.events != [] && Terminal(s.events[|s.events| - 1])
                     && forall i :: 0 <= i < |s.events| - 1 ==> !Terminal(s.events[i]))
    && (forall n :: 0 <= n <= |s.events| ==> SinceConnected(s.events[..n]) <= MAX_RECONNECT_ATTEMPTS)
  }

  lemma DeliverSnoc(events: seq<NetworkEvent>, e: NetworkEvent)
    ensures SinceConnected(events + [e])
         == if e.Connected? then 0 else SinceConnected(events) + if e.Reconnecting? then 1 else 0
  {
    assert (events + [e])[..|events|] == events;
  }

  /** Appending keeps the bound at every prefix. */
  lemma BoundKept(events: seq<NetworkEvent>, e: NetworkEvent)
    requires forall n :: 0 <= n <= |events| ==> SinceConnected(events[..n]) <= MAX_RECONNECT_ATTEMPTS
    requires e.Reconnecting? ==> SinceConnected(events) < MAX_RECONNECT_ATTEMPTS
    ensures forall n :: 0 <= n <= |events| + 1 ==> SinceConnected((events + [e])[..n]) <= MAX_RECONNECT_ATTEMPTS
  {
    DeliverSnoc(events, e);
    assert events[..|events|] == events;
    forall n | 0 <= n <= |events| + 1 ensures SinceConnected((events + [e])[..n]) <= MAX_RECONNECT_ATTEMPTS {
      if n <= |events| {
        assert (events + [e])[..n] == events[..n];
      } else {
        assert (events + [e])[..n] == events + [e];
      }
    }
  }

  lemma OpenDelivered(s: Session, c: Callback, e: NetworkEvent)
    requires Delivered(s) && !s.closed && React(s, c).events == s.events + [e]
    ensures Delivered(React(s, c))
  {
    DeliverSnoc(s.events, e);
    BoundKept(s.events, e);
  }

  lemma ReactDelivered(s: Session, c: Callback)
    requires Delivered(s)
    ensures Delivered(React(s, c))
  {
    if !s.closed {
      match c {
        case OnOpen => OpenDelivered(s, c, Connected);
        case OnMessage => OpenDelivered(s, c, MessageReceived);
        case OnFailure(io) =>
          OpenDelivered(s, c, if io && s.attempt < MAX_RECONNECT_ATTEMPTS then Reconnecting else Error);
        case OnClosing => OpenDelivered(s, c, Disconnected);
        case SetupException => OpenDelivered(s, c, Error);
      }
    }
  }

  /** For every sequence of callbacks, well ordered or not: between two Connected events, before the first
      and after the last, at most 2 Reconnecting events are delivered; at most one Error or Disconnected is
      delivered, it closes the flow, and nothing follows it. */
  lemma {:induction false} EverySessionIsBounded(cs: seq<Callback>)
    ensures Delivered(Run(Start(), cs))
    decreases |cs|
  {
    if cs != [] {
      EverySessionIsBounded(cs[..|cs| - 1]);
      ReactDelivered(Run(Start(), cs[..|cs| - 1]), cs[|cs| - 1]);
    }
  }

  lemma {:induction false} ClosedStaysClosed(s: Session, cs: seq<Callback>)
    requires s.closed
    ensures Run(s, cs).closed && Run(s, cs).events == s.events
    decreases |cs|
  {
    if cs != [] { ClosedStaysClosed(s, cs[..|cs| - 1]); }
  }

  /** From an open session, k consecutive I/O failures use up k attempts while there are any left, and
      close the flow with an Error exactly when k exceeds the attempts left. */
  lemma {:induction false} ConsecutiveFailures(s: Session, k: nat)
    requires !s.closed && s.attempt <= MAX_RECONNECT_ATTEMPTS
    ensures var left := MAX_RECONNECT_ATTEMPTS - s.attempt;
            var r := Run(s, seq(k, i => OnFailure(true)));
            && (r.closed <==> k > left)
            && (k <= left ==> r.attempt == s.attempt + k && r.events == s.events + seq(k, i => Reconnecting))
            && (k > left ==> r.events == s.events + seq(left, i => Reconnecting) + [Error])
    decreases k
  {
    if k > 0 {
      var left := MAX_RECONNECT_ATTEMPTS - s.attempt;
      var all := seq(k, i => OnFailure(true));
      assert all[..k - 1] == seq(k - 1, i => OnFailure(true));
      ConsecutiveFailures(s, k - 1);
      if k <= left {
        assert s.events + seq(k - 1, i => Reconnecting) + [Reconnecting] == s.events + seq(k, i => Reconnecting);
      }
    } else {
      assert s.events + seq(0, i => Reconnecting) == s.events;
    }
  }

  /** The attempts left bound the failures a session survives between two openings; opening refills them. */
  lemma OpeningRefills(s: Session)
    requires !s.closed
    ensures var r := Run(s, [OnOpen, OnFailure(true), OnFailure(true)]);
            !r.closed && r.attempt == MAX_RECONNECT_ATTEMPTS
    ensures Run(s, [OnOpen, OnFailure(true), OnFailure(true), OnFailure(true)]).closed
  {
    var cs := [OnOpen, OnFailure(true), OnFailure(true), OnFailure(true)];
    var c3 := [OnOpen, OnFailure(true), OnFailure(true)];
    assert cs[..3] == c3 && c3[..2] == [OnOpen, OnFailure(true)] && c3[..2][..1] == [OnOpen];
    assert Run(s, []) == s;
    assert Run(s, [OnOpen]) == React(s, OnOpen);
    assert Run(s, [OnOpen, OnFailure(true)]) == React(Run(s, [OnOpen]), OnFailure(true));
  }

  // ---- the session read off its callbacks -----------------------------------------------------------

  function FailuresSinceOpen(cs: seq<Callback>): nat {
    if cs == [] || cs[|cs| - 1].OnOpen? then 0
    else FailuresSinceOpen(cs[..|cs| - 1]) + if cs[|cs| - 1] == OnFailure(true) then 1 else 0
  }

  /** Callback `i` ends the flow: a close, a failed set-up, a failure that is not I/O, or a third I/O
      failure since the last opening. */
  predicate Ends(cs: seq<Callback>, i: nat)
    requires i < |cs|
  {
    match cs[i]
    case OnOpen => false
    case OnMessage => false
    case OnFailure(io) => !io || FailuresSinceOpen(cs[..i]) >= 2
    case OnClosing => true
    case SetupException => true
  }

  predicate Ended(cs: seq<Callback>) { exists i :: 0 <= i < |cs| && Ends(cs, i) }

  /** What one callback of an open session delivers. */
  function EventOf(before: seq<Callback>, c: Callback): NetworkEvent {
    match c
    case OnOpen => Connected
    case OnMessage => MessageReceived
    case OnFailure(io) => if io && FailuresSinceOpen(before) < 2 then Reconnecting else Error
    case OnClosing => Disconnected
    case SetupException => Error
  }

  /** One event for each callback until the flow has ended. */
  function Expected(cs: seq<Callback>): seq<NetworkEvent> {
    if cs == [] then []
    else
      var before := cs[..|cs| - 1];
      if Ended(before) then Expected(before) else Expected(before) + [EventOf(before, cs[|cs| - 1])]
  }

  lemma EndedSnoc(cs: seq<Callback>, c: Callback)
    ensures Ended(cs + [c]) <==> Ended(cs) || Ends(cs + [c], |cs|)
  {
    var all := cs + [c];
    forall i | 0 <= i < |cs| ensures Ends(all, i) <==> Ends(cs, i) {
      assert all[..i] == cs[..i] && all[i] == cs[i];
    }
  }

  /** In every session each callback up to the one that ends it delivers its own event, exactly once and in
      order, and none after it does. */
  lemma {:induction false} SessionFollowsCallbacks(cs: seq<Callback>)
    ensures var s := Run(Start(), cs);
            && (s.closed <==> Ended(cs)) && s.events == Expected(cs)
            && (!s.closed ==> s.attempt == FailuresSinceOpen(cs))
    decreases |cs|
  {
    if cs != [] {
      var before, c := cs[..|cs| - 1], cs[|cs| - 1];
      SessionFollowsCallbacks(before);
      assert cs == before + [c];
      EndedSnoc(before, c);
      assert cs[..|before|] == before;
    }
  }
}
